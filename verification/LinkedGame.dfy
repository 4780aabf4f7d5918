/** Game data over the real link: the instructions of a game travel as messages of kcore/k_message.h, and what is
    handed over is processed by kaillera_ProcessGameInstruction (kcore/kaillera_core.cpp). */
module LinkedGame {
  import opened Bytes
  import G = GameData
  import B = Bundles
  import I = KInstruction
  import K = KMessage
  import R = KMessageRuns

  const GAMEDATA: byte := 18
  const GAMCDATA: byte := 19
  const TEMP_MAX := 32767

  /** An instruction as it is sent, and as it is read off a message that was handed over; None for those that are
      not about game data, and for game data whose length does not fit its body. */
  function Encode(user: seq<byte>, ki: G.Instruction): I.Value
    requires ki.GameData? ==> |ki.payload| < 0x8000
  {
    match ki
    case GameData(payload) => I.Value(GAMEDATA, user, Le16(|payload|) + payload)
    case GameCache(index) => I.Value(GAMCDATA, user, [index])
  }

  function Decode(body: seq<byte>): Option<G.Instruction> {
    var v := I.ReadOff(body);
    if v.kind == GAMEDATA && |v.body| >= 2 && FromLe16(v.body[..2]) < 0x8000
       && |v.body| >= 2 + FromLe16(v.body[..2])
    then
      Some(G.GameData(v.body[2..2 + FromLe16(v.body[..2])]))
    else if v.kind == GAMCDATA && |v.body| >= 1 then Some(G.GameCache(v.body[0]))
    else None
  }

  /** What was written is what is processed, if it fits the 32767 bytes of a message. */
  lemma DecodeUndoesEncode(user: seq<byte>, ki: G.Instruction)
    requires ki.GameData? ==> |ki.payload| < 0x8000
    requires I.Named(Encode(user, ki)) && |user| + 2 + |Encode(user, ki).body| <= TEMP_MAX
    ensures Decode(I.Written(Encode(user, ki), TEMP_MAX)) == Some(ki)
  {
    var v := Encode(user, ki);
    I.ReadUndoesWrite(v, TEMP_MAX);
    match ki
    case GameData(payload) =>
      assert v.body[..2] == Le16(|payload|) && v.body[2..2 + |payload|] == payload;
      Le16RoundTrip(|payload|);
    case GameCache(_) =>
  }

  /** k_message::send_instruction, for the game data of a client. */
  method SendGameData(ep: K.Endpoint, user: seq<byte>, values: seq<byte>, ipm: int) returns (packet: seq<byte>)
    requires ep.Valid() && |user| + 4 + |values| <= TEMP_MAX && I.Named(Encode(user, G.GameData(values)))
    modifies ep
    ensures ep.Valid() && packet == B.Transmission(K.EncodeMsg, ep.outCache, ipm)
    ensures ep.outCache == (if |old(ep.outCache)| == K.CACHE_SIZE - 1 then old(ep.outCache)[1..] else old(ep.outCache))
                           + [K.Msg(old(ep.lastSent), I.Written(Encode(user, G.GameData(values)), TEMP_MAX))]
  {
    var ki := new I.Instruction();
    ki.kind := GAMEDATA;
    ki.SetUsername(user);
    ki.StoreBytes(Le16(|values|));
    ki.StoreBytes(values);
    var body := ki.WriteToMessage(TEMP_MAX);
    assert user[..|user|] == user && [] + Le16(|values|) + values == Le16(|values|) + values;
    packet := ep.Send(body, ipm);
  }

  // ----- without loss -----

  /** The game data among some messages. */
  function GameOf(bodies: seq<seq<byte>>): seq<G.Instruction> {
    if bodies == [] then []
    else
      var n := |bodies| - 1;
      GameOf(bodies[..n]) + if Decode(bodies[n]).Some? then [Decode(bodies[n]).value] else []
  }

  ghost predicate Sendable(user: seq<byte>, ki: G.Instruction) {
    && (ki.GameData? ==> |ki.payload| < 0x8000)
    && I.Named(Encode(user, ki)) && |user| + 2 + |Encode(user, ki).body| <= TEMP_MAX
  }

  /** The messages that carry these instructions, in order. */
  function Messages(user: seq<byte>, kis: seq<G.Instruction>): (bs: seq<seq<byte>>)
    requires forall i :: 0 <= i < |kis| ==> Sendable(user, kis[i])
    ensures |bs| == |kis|
  {
    if kis == [] then []
    else
      var n := |kis| - 1;
      assert Sendable(user, kis[n]);
      Messages(user, kis[..n]) + [I.Written(Encode(user, kis[n]), TEMP_MAX)]
  }

  /** Nothing of the game data sent is lost or added by the writing and reading of messages. */
  lemma {:induction false} GameIsSent(user: seq<byte>, kis: seq<G.Instruction>)
    requires forall i :: 0 <= i < |kis| ==> Sendable(user, kis[i])
    ensures GameOf(Messages(user, kis)) == kis
    decreases |kis|
  {
    if kis != [] {
      var n := |kis| - 1;
      GameIsSent(user, kis[..n]);
      assert Messages(user, kis)[..n] == Messages(user, kis[..n]);
      DecodeUndoesEncode(user, kis[n]);
    }
  }

  function BodiesOf(delivered: seq<(nat, seq<byte>)>): (bs: seq<seq<byte>>)
    ensures |bs| == |delivered| && forall i :: 0 <= i < |delivered| ==> bs[i] == delivered[i].1
  {
    seq(|delivered|, i requires 0 <= i < |delivered| => delivered[i].1)
  }

  lemma {:induction false} GamePrefix(bodies: seq<seq<byte>>, n: nat)
    requires n <= |bodies|
    ensures GameOf(bodies[..n]) <= GameOf(bodies)
    decreases |bodies|
  {
    if n < |bodies| {
      GamePrefix(bodies[..|bodies| - 1], n);
      assert bodies[..|bodies| - 1][..n] == bodies[..n];
    } else {
      assert bodies[..n] == bodies;
    }
  }

  lemma {:induction false} SendsPrefix(cache: seq<seq<byte>>, payloads: seq<seq<byte>>, kis: seq<G.Instruction>, n: nat)
    requires G.Sends(cache, payloads, kis) && n <= |kis|
    ensures G.Sends(cache, payloads[..n], kis[..n])
    decreases n
  {
    if n > 0 {
      assert kis[..n][1..] == kis[1..][..n - 1] && payloads[..n][1..] == payloads[1..][..n - 1];
      match kis[0]
      case GameData(payload) => SendsPrefix(G.Remembered(cache, payload), payloads[1..], kis[1..], n - 1);
      case GameCache(_) => SendsPrefix(cache, payloads[1..], kis[1..], n - 1);
    }
  }

  const EMPTY := G.State([], [])

  /** Over a link on which every bundle reaches back far enough, whatever mixture of literals and indices the
      sender chooses for its payloads, the pieces queued from what was handed over so far put together are the
      first of the payloads put together: one for each piece of game data handed over. */
  lemma PiecesAreThePayloadsSent(w: R.World, payloads: seq<seq<byte>>, beyond: seq<byte>, conset: nat)
    requires R.GaplessReachable(w) && G.Sends([], payloads, GameOf(w.sent)) && G.Even(payloads, beyond, conset)
    ensures var kis := GameOf(BodiesOf(w.delivered));
            && |kis| <= |payloads| && G.ProcessAll(EMPTY, kis, beyond, conset).Some?
            && Flatten(G.ProcessAll(EMPTY, kis, beyond, conset).value.queue) == Flatten(payloads[..|kis|])
  {
    R.GaplessDeliveryIsAPrefix(w);
    var n := |w.delivered|;
    assert BodiesOf(w.delivered) == w.sent[..n];
    GamePrefix(w.sent, n);
    var all, kis := GameOf(w.sent), GameOf(w.sent[..n]);
    SendsPrefix([], payloads, all, |kis|);
    assert all[..|kis|] == kis;
    G.CachingIsLossless(EMPTY, payloads[..|kis|], kis, beyond, conset);
    assert Flatten(EMPTY.queue) + Flatten(payloads[..|kis|]) == Flatten(payloads[..|kis|]);
  }

  // ----- after a loss -----

  function RememberedAll(cache: seq<seq<byte>>, payloads: seq<seq<byte>>): seq<seq<byte>>
    decreases |payloads|
  {
    if payloads == [] then cache else RememberedAll(G.Remembered(cache, payloads[0]), payloads[1..])
  }

  /** The last 256, or all if they are fewer. */
  function Last(s: seq<seq<byte>>): seq<seq<byte>> {
    if |s| <= G.CACHE_MAX then s else s[|s| - G.CACHE_MAX..]
  }

  /** The list holds the last 256 literals. */
  lemma {:induction false} RememberedAreTheLast(cache: seq<seq<byte>>, payloads: seq<seq<byte>>)
    requires |cache| <= G.CACHE_MAX
    ensures RememberedAll(cache, payloads) == Last(cache + payloads)
    decreases |payloads|
  {
    if payloads == [] {
      assert cache + payloads == cache;
    } else {
      var next := G.Remembered(cache, payloads[0]);
      RememberedAreTheLast(next, payloads[1..]);
      LastOfLast(cache, payloads);
    }
  }

  lemma LastOfLast(cache: seq<seq<byte>>, payloads: seq<seq<byte>>)
    requires |cache| <= G.CACHE_MAX && payloads != []
    ensures Last(G.Remembered(cache, payloads[0]) + payloads[1..]) == Last(cache + payloads)
  {
    var kept := if |cache| == G.CACHE_MAX then cache[1..] else cache;
    assert kept + [payloads[0]] + payloads[1..] == kept + payloads;
    if |cache| == G.CACHE_MAX {
      assert kept + payloads == (cache + payloads)[1..];
    }
  }

  /** A receiver that missed one literal: `sender` is the list behind the indices that come, `receiver` the list
      they are looked up in, after n more literals that both have. */
  ghost predicate MissedOne(sender: seq<seq<byte>>, receiver: seq<seq<byte>>, n: nat) {
    && (n >= G.CACHE_MAX ==> receiver == sender)
    && (n < G.CACHE_MAX ==>
          var j := |sender| - 1 - n;
          && j >= 0
          && (|receiver| < |sender| ==>
                && |receiver| == |sender| - 1
                && (forall i :: 0 <= i < j ==> receiver[i] == sender[i])
                && (forall i :: j <= i < |receiver| ==> receiver[i] == sender[i + 1]))
          && (|receiver| >= |sender| ==>
                && |receiver| == |sender| == G.CACHE_MAX
                && (forall i :: 0 < i <= j ==> receiver[i] == sender[i - 1])
                && (forall i :: j < i < |receiver| ==> receiver[i] == sender[i])))
  }

  /** What a literal that was given up does to the indices behind it. Until the lists are full, each index from
      its place on names the literal after the one that is meant, and the last names none; once they are full,
      each index up to its place names the literal before the one that is meant. It is over when 256 more
      literals have come. */
  lemma LostLiteralShiftsTheList(cache: seq<seq<byte>>, lost: seq<byte>, more: seq<seq<byte>>)
    requires |cache| <= G.CACHE_MAX
    ensures MissedOne(RememberedAll(G.Remembered(cache, lost), more), RememberedAll(cache, more), |more|)
  {
    var sender, receiver := RememberedAll(G.Remembered(cache, lost), more), RememberedAll(cache, more);
    RememberedAreTheLast(cache, [lost] + more);
    assert RememberedAll(cache, [lost] + more) == sender by {
      assert ([lost] + more)[1..] == more;
    }
    RememberedAreTheLast(cache, more);
    LastWithout(cache, lost, more);
  }

  lemma LastWithout(cache: seq<seq<byte>>, lost: seq<byte>, more: seq<seq<byte>>)
    requires |cache| <= G.CACHE_MAX
    ensures MissedOne(Last(cache + ([lost] + more)), Last(cache + more), |more|)
  {
    var with, without := cache + ([lost] + more), cache + more;
    assert forall i :: 0 <= i < |cache| ==> with[i] == without[i] == cache[i];
    assert forall i :: |cache| <= i < |without| ==> without[i] == with[i + 1];
    if |more| >= G.CACHE_MAX {
      assert Last(with) == Last(without);
    }
  }
}
