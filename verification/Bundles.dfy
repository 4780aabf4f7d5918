/** How both message links put their newest messages into one datagram (kcore/k_message.h and
    core/p2p_message.h): the count, then the messages, the newest first. */
module Bundles {
  import opened Bytes

  const PACKET_MAX := 0x1000

  function EncodeAll<T>(encode: T -> seq<byte>, ms: seq<T>): seq<byte> {
    if |ms| == 0 then [] else encode(ms[0]) + EncodeAll(encode, ms[1..])
  }

  /** The messages a transmission carries: the newest first, at most limit of them, as long as room bytes
      hold them. */
  function Packed<T>(encode: T -> seq<byte>, out: seq<T>, limit: int, room: nat): (r: seq<T>)
    ensures |r| <= |out|
    decreases |out|
  {
    if |out| == 0 || limit <= 0 || |encode(out[|out| - 1])| > room then []
    else
      var m := out[|out| - 1];
      [m] + Packed(encode, out[..|out| - 1], limit - 1, room - |encode(m)|)
  }

  function Transmission<T>(encode: T -> seq<byte>, out: seq<T>, limit: int): seq<byte>
    requires |out| < 0x100
  {
    var ms := Packed(encode, out, limit, PACKET_MAX - 1);
    [|ms|] + EncodeAll(encode, ms)
  }

  /** What a loop that packs messages one by one still has to do: `left`, of the messages in rest. */
  ghost predicate Packing<T>(encode: T -> seq<byte>, rest: seq<T>, limit: int, room: int, left: seq<T>,
                             payload: seq<byte>, all: seq<T>) {
    room >= 0 && left == Packed(encode, rest, limit, room)
    && payload + EncodeAll(encode, left) == EncodeAll(encode, all)
  }

  lemma PackingStarts<T>(encode: T -> seq<byte>, out: seq<T>, limit: int, room: nat)
    ensures Packing(encode, out, limit, room, Packed(encode, out, limit, room), [], Packed(encode, out, limit, room))
  {
    var ms := Packed(encode, out, limit, room);
    assert [] + EncodeAll(encode, ms) == EncodeAll(encode, ms);
  }

  lemma PackedStep<T>(encode: T -> seq<byte>, rest: seq<T>, limit: int, room: int, m: T, left: seq<T>,
                      payload: seq<byte>, all: seq<T>)
    requires Packing(encode, rest, limit, room, left, payload, all) && |rest| > 0 && limit > 0 && m == rest[|rest| - 1]
    ensures if |encode(m)| > room then left == []
            else
              && left != []
              && Packing(encode, rest[..|rest| - 1], limit - 1, room - |encode(m)|, left[1..], payload + encode(m), all)
  {
    if left != [] {
      Regrouped(payload, encode(left[0]), EncodeAll(encode, left[1..]));
    }
  }

  lemma PackedAll<T>(encode: T -> seq<byte>, rest: seq<T>, limit: int, room: int, left: seq<T>, payload: seq<byte>,
                     all: seq<T>)
    requires Packing(encode, rest, limit, room, left, payload, all) && (|rest| == 0 || limit <= 0 || left == [])
    ensures left == [] && payload == EncodeAll(encode, all)
  {
  }

  /** Packs the newest of `out`, as many as `limit` and the 4096-byte buffer allow. */
  method PackNewest<T>(encode: T -> seq<byte>, out: seq<T>, limit: int) returns (sent: nat, payload: seq<byte>)
    ensures sent == |Packed(encode, out, limit, PACKET_MAX - 1)|
            && payload == EncodeAll(encode, Packed(encode, out, limit, PACKET_MAX - 1))
  {
    var maxT := Min(|out|, limit);
    sent, payload := 0, [];
    ghost var all := Packed(encode, out, limit, PACKET_MAX - 1);
    ghost var rest, left, room := out, all, PACKET_MAX - 1;
    PackingStarts(encode, out, limit, room);
    while sent < maxT
      invariant sent <= |out| && (maxT > 0 ==> sent <= maxT) && |all| == sent + |left|
      invariant rest == out[..|out| - sent] && room == PACKET_MAX - 1 - |payload|
      invariant Packing(encode, rest, limit - sent, room, left, payload, all)
    {
      var m := out[|out| - 1 - sent];
      var bytes := encode(m);
      PackedStep(encode, rest, limit - sent, room, m, left, payload, all);
      if 1 + |payload| + |bytes| > PACKET_MAX {
        break;
      }
      left, rest, room := left[1..], rest[..|rest| - 1], room - |bytes|;
      payload := payload + bytes;
      sent := sent + 1;
    }
    PackedAll(encode, rest, limit - sent, room, left, payload, all);
  }

  ghost predicate NewestFirst<T>(encode: T -> seq<byte>, ms: seq<T>, out: seq<T>, room: nat) {
    && |ms| <= |out|
    && forall i :: 0 <= i < |ms| ==> ms[i] == out[|out| - 1 - i] && |encode(ms[i])| <= room
  }

  lemma {:induction false} PackedIsNewestFirst<T>(encode: T -> seq<byte>, out: seq<T>, limit: int, room: nat)
    ensures NewestFirst(encode, Packed(encode, out, limit, room), out, room)
    decreases |out|
  {
    var ms := Packed(encode, out, limit, room);
    if ms != [] {
      var m, older := out[|out| - 1], out[..|out| - 1];
      var rest := Packed(encode, older, limit - 1, room - |encode(m)|);
      PackedIsNewestFirst(encode, older, limit - 1, room - |encode(m)|);
      assert ms == [m] + rest;
      forall i | 0 <= i < |ms|
        ensures ms[i] == out[|out| - 1 - i] && |encode(ms[i])| <= room
      {
        if i > 0 {
          assert rest[i - 1] == older[|older| - 1 - (i - 1)];
        }
      }
    }
  }

  /** A transmission takes as many of the newest messages as limit and room allow: the next would be one too many. */
  lemma {:induction false} PackedTakesAllThatFits<T>(encode: T -> seq<byte>, out: seq<T>, limit: int, room: nat)
    ensures var ms := Packed(encode, out, limit, room);
            && (limit >= 0 ==> |ms| <= limit) && |EncodeAll(encode, ms)| <= room
            && (|ms| < |out| && |ms| < limit ==>
                  |EncodeAll(encode, ms)| + |encode(out[|out| - 1 - |ms|])| > room)
    decreases |out|
  {
    var ms := Packed(encode, out, limit, room);
    if ms != [] {
      var m, older := out[|out| - 1], out[..|out| - 1];
      PackedTakesAllThatFits(encode, older, limit - 1, room - |encode(m)|);
      assert ms[1..] == Packed(encode, older, limit - 1, room - |encode(m)|);
    }
  }
}
