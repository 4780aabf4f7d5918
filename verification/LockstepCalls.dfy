/** Calls of p2p_modify_play_values inside a run of the two peers (core/p2p_core.cpp): what a call answers is what
    the run gets by its steps, whatever the other peer does meanwhile. */
module LockstepCalls {
  import opened Bytes
  import opened Lockstep

  /** What the other peer does before a poll, and how many of the messages then on their way the poll finds. */
  datatype Poll = Poll(others: seq<Event>, found: nat)

  function After(w: World, es: seq<Event>, throughput: nat, datalen: nat): World
    decreases |es|
  {
    if es == [] then w else After(Step(w, es[0], throughput, datalen), es[1..], throughput, datalen)
  }

  ghost predicate OthersSteps(w: World, es: seq<Event>, asHost: bool, throughput: nat, datalen: nat)
    decreases |es|
  {
    es != [] ==>
      && es[0].asHost != asHost && Allowed(w, es[0], datalen)
      && OthersSteps(Step(w, es[0], throughput, datalen), es[1..], asHost, throughput, datalen)
  }

  /** Receives n messages one by one, as long as the game goes on. */
  function ReceivedAll(w: World, asHost: bool, n: nat, throughput: nat, datalen: nat): World
    decreases n
  {
    if n == 0 || Own(w, asHost).inbox == [] || Own(w, asHost).peer.status != Playing then w
    else ReceivedAll(Step(w, Receive(asHost), throughput, datalen), asHost, n - 1, throughput, datalen)
  }

  function Found(w: World, asHost: bool, poll: Poll, throughput: nat, datalen: nat): seq<Message> {
    var inbox := Own(After(w, poll.others, throughput, datalen), asHost).inbox;
    inbox[..Min(poll.found, |inbox|)]
  }

  function Polled(w: World, asHost: bool, poll: Poll, throughput: nat, datalen: nat): World {
    ReceivedAll(After(w, poll.others, throughput, datalen), asHost, poll.found, throughput, datalen)
  }

  predicate KeepsWaiting(w: World, asHost: bool, datalen: nat) {
    Own(w, asHost).peer.status == Playing && |Own(w, asHost).peer.peerData| < datalen
  }

  /** The wait, poll by poll: where it leads, and what its polls found. */
  function Awaited(w: World, asHost: bool, polls: seq<Poll>, throughput: nat, datalen: nat): (World, seq<seq<Message>>)
    decreases |polls|
  {
    if polls == [] || !KeepsWaiting(w, asHost, datalen) then (w, [])
    else
      var rest := Awaited(Polled(w, asHost, polls[0], throughput, datalen), asHost, polls[1..], throughput, datalen);
      (rest.0, [Found(w, asHost, polls[0], throughput, datalen)] + rest.1)
  }

  /** At each poll of the wait, what the other peer did before was allowed. */
  ghost predicate PollsFit(w: World, asHost: bool, polls: seq<Poll>, throughput: nat, datalen: nat)
    decreases |polls|
  {
    polls != [] && KeepsWaiting(w, asHost, datalen) ==>
      && OthersSteps(w, polls[0].others, asHost, throughput, datalen)
      && PollsFit(Polled(w, asHost, polls[0], throughput, datalen), asHost, polls[1..], throughput, datalen)
  }

  /** The steps of a run that make up one call: Enter; while it waits, Receive for each message a poll finds; and
      Leave, or DropGame once the polls are over without a frame. */
  function Called(w: World, asHost: bool, values: seq<byte>, polls: seq<Poll>, throughput: nat, datalen: nat): World {
    var entered := Step(w, Enter(asHost, values), throughput, datalen);
    if !Own(entered, asHost).peer.waiting then entered
    else
      var waited := Awaited(entered, asHost, polls, throughput, datalen).0;
      if Own(waited, asHost).peer.status != Playing then waited
      else if KeepsWaiting(waited, asHost, datalen) then Step(waited, DropGame(asHost), throughput, datalen)
      else Step(waited, Leave(asHost), throughput, datalen)
  }

  /** What the polls of that call find. */
  function Arrivals(w: World, asHost: bool, values: seq<byte>, polls: seq<Poll>, throughput: nat, datalen: nat)
    : seq<seq<Message>>
  {
    Awaited(Step(w, Enter(asHost, values), throughput, datalen), asHost, polls, throughput, datalen).1
  }

  // ----- each step of a call is a step of the run -----

  lemma {:induction false} AfterInTurn(w: World, es: seq<Event>, e: Event, throughput: nat, datalen: nat)
    ensures After(w, es + [e], throughput, datalen) ==
              Step(After(w, es, throughput, datalen), e, throughput, datalen)
    decreases |es|
  {
    if es == [] {
      assert es + [e] == [e];
    } else {
      AfterInTurn(Step(w, es[0], throughput, datalen), es[1..], e, throughput, datalen);
      assert (es + [e])[0] == es[0] && (es + [e])[1..] == es[1..] + [e];
    }
  }

  lemma ReachableNext(w: World, e: Event, throughput: nat, datalen: nat)
    requires Reachable(w, throughput, datalen) && Allowed(w, e, datalen)
    ensures Reachable(Step(w, e, throughput, datalen), throughput, datalen)
  {
    var ws, es :| IsRun(ws, es, throughput, datalen) && ws[|es|] == w;
    var w' := Step(w, e, throughput, datalen);
    var ws', es' := ws + [w'], es + [e];
    forall i, j | 0 <= i < j < |ws'| && j == i + 1
      ensures Next(ws'[i], es'[i], ws'[j], throughput, datalen)
    {
      if i < |es| {
        assert Next(ws[i], es[i], ws[j], throughput, datalen);
      }
    }
    assert IsRun(ws', es', throughput, datalen) && ws'[|es'|] == w';
  }

  /** From w to w' the peer got further messages on their way to it, and nothing else of its side changed. */
  ghost predicate OnlyPosted(x: Side, x': Side) {
    x' == x.(inbox := x'.inbox)
  }

  lemma {:induction false} OthersDoNotMatter(w: World, es: seq<Event>, asHost: bool, throughput: nat, datalen: nat)
    requires Reachable(w, throughput, datalen) && OthersSteps(w, es, asHost, throughput, datalen)
    ensures Reachable(After(w, es, throughput, datalen), throughput, datalen)
    ensures OnlyPosted(Own(w, asHost), Own(After(w, es, throughput, datalen), asHost))
    decreases |es|
  {
    if es != [] {
      ReachableNext(w, es[0], throughput, datalen);
      OthersDoNotMatter(Step(w, es[0], throughput, datalen), es[1..], asHost, throughput, datalen);
    }
  }

  /** Receiving the messages of a batch one by one digests the batch. */
  lemma {:induction false} ReceivedIsTook(w: World, asHost: bool, n: nat, throughput: nat, datalen: nat, w': World)
    requires Reachable(w, throughput, datalen)
    requires Own(w, asHost).peer.status == Playing && Own(w, asHost).peer.waiting
    requires w' == ReceivedAll(w, asHost, n, throughput, datalen)
    ensures Reachable(w', throughput, datalen) && Own(w', asHost).results == Own(w, asHost).results
    ensures Own(w', asHost).peer ==
              TookAll(Own(w, asHost).peer, Own(w, asHost).inbox[..Min(n, |Own(w, asHost).inbox|)])
    ensures Own(w', asHost).peer.status == Playing ==> Own(w', asHost).peer.waiting
    decreases n
  {
    var x := Own(w, asHost);
    if n > 0 && x.inbox != [] {
      var w1 := Step(w, Receive(asHost), throughput, datalen);
      ReachableNext(w, Receive(asHost), throughput, datalen);
      var batch := x.inbox[..Min(n, |x.inbox|)];
      assert batch[0] == x.inbox[0] && batch[1..] == Own(w1, asHost).inbox[..Min(n - 1, |Own(w1, asHost).inbox|)];
      if x.inbox[0].Drop? {
      } else {
        ReceivedIsTook(w1, asHost, n - 1, throughput, datalen, w');
      }
    }
  }

  /** The messages on their way to a peer are frames of the right length. */
  lemma InboxIsSized(w: World, asHost: bool, throughput: nat, datalen: nat)
    requires Reachable(w, throughput, datalen)
    ensures forall m :: m in Own(w, asHost).inbox && m.Data? ==> |m.bytes| == datalen
  {
    ReachableInv(w, throughput, datalen);
    forall m | m in Own(w, asHost).inbox && m.Data?
      ensures |m.bytes| == datalen
    {
      FrameAmong(Own(w, asHost).inbox, m);
    }
  }

  lemma {:induction false} FrameAmong(ms: seq<Message>, m: Message)
    requires m in ms && m.Data?
    ensures m.bytes in Frames(ms)
    decreases |ms|
  {
    if m != ms[|ms| - 1] {
      FrameAmong(ms[..|ms| - 1], m);
    }
  }

  /** One poll of a waiting peer. */
  lemma PollIsSteps(w: World, asHost: bool, poll: Poll, throughput: nat, datalen: nat, w': World)
    requires Reachable(w, throughput, datalen) && OthersSteps(w, poll.others, asHost, throughput, datalen)
    requires Own(w, asHost).peer.status == Playing && Own(w, asHost).peer.waiting
    requires w' == Polled(w, asHost, poll, throughput, datalen)
    ensures Reachable(w', throughput, datalen) && Own(w', asHost).results == Own(w, asHost).results
    ensures Own(w', asHost).peer == TookAll(Own(w, asHost).peer, Found(w, asHost, poll, throughput, datalen))
    ensures Own(w', asHost).peer.status == Playing ==> Own(w', asHost).peer.waiting
    ensures forall m :: m in Found(w, asHost, poll, throughput, datalen) && m.Data? ==> |m.bytes| == datalen
  {
    OthersDoNotMatter(w, poll.others, asHost, throughput, datalen);
    var w1 := After(w, poll.others, throughput, datalen);
    InboxIsSized(w1, asHost, throughput, datalen);
    ReceivedIsTook(w1, asHost, poll.found, throughput, datalen, w');
  }

  /** The whole wait. */
  lemma {:induction false} WaitIsSteps(w: World, asHost: bool, polls: seq<Poll>, throughput: nat, datalen: nat,
                                       w': World, arrivals: seq<seq<Message>>)
    requires Reachable(w, throughput, datalen) && PollsFit(w, asHost, polls, throughput, datalen)
    requires Own(w, asHost).peer.status == Playing && Own(w, asHost).peer.waiting
    requires (w', arrivals) == Awaited(w, asHost, polls, throughput, datalen)
    ensures Reachable(w', throughput, datalen) && AllFrames(arrivals, datalen)
    ensures Own(w', asHost).results == Own(w, asHost).results
    ensures Own(w', asHost).peer.status == Playing ==> Own(w', asHost).peer.waiting
    ensures WaitedTo(Own(w, asHost).peer, arrivals, datalen, Own(w', asHost).peer)
    decreases |polls|
  {
    if polls != [] && KeepsWaiting(w, asHost, datalen) {
      var w1 := Polled(w, asHost, polls[0], throughput, datalen);
      PollIsSteps(w, asHost, polls[0], throughput, datalen, w1);
      if Own(w1, asHost).peer.status == Playing {
        WaitIsSteps(w1, asHost, polls[1..], throughput, datalen, w', arrivals[1..]);
      } else {
        assert arrivals[1..] == [];
      }
    }
  }

  /** A wait on these arrivals leads to q; if q still waits, only its time-out is missing. */
  ghost predicate WaitedTo(p: Peer, arrivals: seq<seq<Message>>, datalen: nat, q: Peer) {
    Waited(p, arrivals, datalen) ==
      if q.status == Playing && |q.peerData| < datalen then q.(status := Lobby, waiting := false) else q
  }

  /** What a call answers to what its polls find is what the steps of the run lead to: the same state of the peer,
      the answer among the results of the run, and everything that holds of reachable states holds there. */
  lemma CallIsSteps(w: World, asHost: bool, values: seq<byte>, polls: seq<Poll>, throughput: nat, datalen: nat,
                    answer: Answer, p': Peer)
    requires Reachable(w, throughput, datalen) && Allowed(w, Enter(asHost, values), datalen)
    requires PollsFit(Step(w, Enter(asHost, values), throughput, datalen), asHost, polls, throughput, datalen)
    requires Answers(Own(w, asHost).peer, values, Arrivals(w, asHost, values, polls, throughput, datalen), throughput,
                     asHost, datalen, answer, p')
    ensures var w' := Called(w, asHost, values, polls, throughput, datalen);
            && Reachable(w', throughput, datalen)
            && Own(w', asHost).results == Own(w, asHost).results + (if answer.Combined? then [answer.values] else [])
            && (answer.Ended? <==> Own(w', asHost).peer.status == Lobby) && !Own(w', asHost).peer.waiting
            && (!answer.Ended? ==> Own(w', asHost).peer == p')
  {
    var entered := Step(w, Enter(asHost, values), throughput, datalen);
    ReachableNext(w, Enter(asHost, values), throughput, datalen);
    if Own(entered, asHost).peer.waiting {
      var (waited, arrivals) := Awaited(entered, asHost, polls, throughput, datalen);
      WaitIsSteps(entered, asHost, polls, throughput, datalen, waited, arrivals);
      EndIsStep(entered, waited, asHost, arrivals, throughput, datalen, answer, p');
    }
  }

  /** How the call goes on from the end of its wait. */
  lemma EndIsStep(entered: World, waited: World, asHost: bool, arrivals: seq<seq<Message>>, throughput: nat,
                  datalen: nat, answer: Answer, p': Peer)
    requires Reachable(waited, throughput, datalen) && AllFrames(arrivals, datalen)
    requires Own(entered, asHost).peer.status == Playing
    requires WaitedTo(Own(entered, asHost).peer, arrivals, datalen, Own(waited, asHost).peer)
    requires Own(waited, asHost).peer.status == Playing ==> Own(waited, asHost).peer.waiting
    requires Answered(Own(entered, asHost).peer, arrivals, asHost, datalen, answer, p')
    ensures var w' := if Own(waited, asHost).peer.status != Playing then waited
                      else if KeepsWaiting(waited, asHost, datalen) then
                        Step(waited, DropGame(asHost), throughput, datalen)
                      else Step(waited, Leave(asHost), throughput, datalen);
            && Reachable(w', throughput, datalen)
            && Own(w', asHost).results == Own(waited, asHost).results
                                          + (if answer.Combined? then [answer.values] else [])
            && (answer.Ended? <==> Own(w', asHost).peer.status == Lobby) && !Own(w', asHost).peer.waiting
            && (!answer.Ended? ==> Own(w', asHost).peer == p')
  {
    var p, q := Own(entered, asHost).peer, Own(waited, asHost).peer;
    WaitedLaw(p, arrivals, datalen);
    assert p.peerData + [] == p.peerData;
    if Own(waited, asHost).peer.status == Playing {
      if KeepsWaiting(waited, asHost, datalen) {
        ReachableNext(waited, DropGame(asHost), throughput, datalen);
      } else {
        ReachableNext(waited, Leave(asHost), throughput, datalen);
      }
    }
  }
}
