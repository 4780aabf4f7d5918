/** Instructions of the peer-to-peer protocol (core/p2p_instruction.cpp): a head byte and at most 255
    bytes of body, sent with a one-byte length. */
module P2PInstruction {
  import opened Bytes
  import KInstruction

  const BODY_MAX := 255
  const VSTRING_MAX := 250

  datatype Value = Value(head: byte, body: seq<byte>)

  /** What fits behind the bytes stored before. */
  function Added(body: seq<byte>, x: seq<byte>): (r: seq<byte>)
    requires |body| <= BODY_MAX
    ensures |r| <= BODY_MAX
  {
    body + x[..Min(|x|, BODY_MAX - |body|)]
  }

  function VString(s: seq<byte>): seq<byte> {
    s[..Min(|s|, VSTRING_MAX)] + [0]
  }

  function ReadOff(msg: seq<byte>): Value {
    if msg == [] then Value(0, []) else Value(msg[0], msg[1..1 + Min(|msg| - 1, BODY_MAX)])
  }

  class Instruction {
    var head: byte
    const body: array<byte>
    var pos: byte
    var len: byte

    ghost predicate Valid()
      reads this
    {
      body.Length == 256
    }

    /** What has been stored so far. */
    ghost function Storing(): seq<byte>
      requires Valid()
      reads this, body
    {
      body[..pos]
    }

    /** What is still to be loaded. */
    ghost function Left(): seq<byte>
      requires Valid()
      reads this, body
    {
      if pos <= len then body[pos..len] else []
    }

    constructor (head: byte)
      ensures Valid() && fresh(body) && this.head == head && Storing() == [] && len == 0
    {
      this.head, pos, len := head, 0, 0;
      body := new byte[256](_ => 0);
    }

    method StoreBytes(x: seq<byte>)
      requires Valid()
      modifies this`pos, body
      ensures Valid() && Storing() == Added(old(Storing()), x)
    {
      var le := Min(|x| + pos, 255) - pos;
      forall i | 0 <= i < le {
        body[pos + i] := x[i];
      }
      pos := pos + le;
    }

    method StoreVString(s: seq<byte>)
      requires Valid()
      modifies this`pos, body
      ensures Valid() && Storing() == Added(Added(old(Storing()), s[..Min(|s|, VSTRING_MAX)]), [0])
    {
      var n := Min(|s|, VSTRING_MAX);
      StoreBytes(s[..n]);
      StoreBytes([0]);
    }

    /** All n bytes or none. */
    method LoadBytes(n: nat) returns (x: Option<seq<byte>>)
      requires Valid() && pos <= len
      modifies this`pos
      ensures Valid() && pos <= len
      ensures n <= |old(Left())| ==> x == Some(old(Left())[..n]) && Left() == old(Left())[n..]
      ensures n > |old(Left())| ==> x == None && Left() == old(Left())
    {
      ghost var left := Left();
      x := None;
      if pos + n <= len {
        x := Some(body[pos..pos + n]);
        assert body[pos..pos + n] == left[..n] && body[pos + n..len] == left[n..];
        pos := pos + n;
      }
    }

    method LoadVString(dst: seq<byte>) returns (out: seq<byte>)
      requires Valid() && pos <= len
      modifies this`pos
      ensures Valid() && pos <= len
      ensures Left() == old(Left())[KInstruction.StrLength(old(Left()))..]
      ensures out == KInstruction.StrInto(old(Left()), dst)
    {
      ghost var left := Left();
      var consume := FindStrLength();
      if |dst| == 0 {
        pos := Min(len, pos + consume);
        return dst;
      }
      var n := Min(|dst| - 1, consume);
      out := body[pos..pos + n] + [0] + dst[n + 1..];
      assert body[pos..pos + n] == left[..n];
      pos := Min(len, pos + consume);
    }

    /** Finds the NUL of the string at pos, within the bytes there are. */
    method FindStrLength() returns (n: nat)
      requires Valid() && pos <= len
      ensures n == KInstruction.StrLength(Left())
    {
      ghost var left := Left();
      var remaining := len - pos;
      var nul := 0;
      while nul < remaining && body[pos + nul] != 0
        invariant nul <= remaining && NulAt(left, 0) == NulAt(left, nul)
      {
        nul := nul + 1;
      }
      n := if nul < remaining then nul + 1 else remaining;
    }

    method WriteToMessage() returns (msg: seq<byte>)
      requires Valid()
      ensures msg == [head] + Storing()
    {
      msg := [head] + body[..pos];
    }

    method ReadFromMessage(msg: seq<byte>)
      requires Valid()
      modifies this, body
      ensures Valid() && pos == 0 && Value(head, Left()) == ReadOff(msg)
    {
      pos := 0;
      if |msg| == 0 {
        head, len := 0, 0;
        return;
      }
      head := msg[0];
      len := Min(|msg| - 1, 255);
      for i := 0 to len
        invariant pos == 0 && head == msg[0] && len == Min(|msg| - 1, 255)
        invariant body[..i] == msg[1..1 + i]
      {
        body[i] := msg[1 + i];
      }
    }
  }

  /** What arrives of an instruction that p2p_message::send passes on: the length travels in one byte. */
  function Transferred(v: Value): seq<byte> {
    var msg := [v.head] + v.body;
    msg[..|msg| % 0x100]
  }

  /** An instruction arrives as it was sent if and only if its body has at most 254 bytes; one with 255
      arrives as an empty one. */
  lemma ReadUndoesWrite(v: Value)
    requires |v.body| <= BODY_MAX
    ensures ReadOff(Transferred(v)) == v <==> |v.body| <= 254
    ensures |v.body| == BODY_MAX ==> ReadOff(Transferred(v)) == Value(0, [])
  {
    var msg := [v.head] + v.body;
    if |v.body| <= 254 {
      assert msg[..|msg|] == msg && msg[1..1 + |v.body|] == v.body;
    } else {
      assert |msg| % 0x100 == 0;
    }
  }

  /** A string that fits is loaded back, shortened to its destination or to 250 bytes, and the loading
      ends exactly behind its NUL; that its NUL fits is what it takes. */
  lemma VStringComesBack(before: seq<byte>, s: seq<byte>, more: seq<byte>, room: nat)
    requires NoNul(s) && |before| + |VString(s)| <= BODY_MAX
    ensures var body := Added(Added(before, s[..Min(|s|, VSTRING_MAX)]), [0]) + more;
            var left := body[|before|..];
            && left[KInstruction.StrLength(left)..] == more
            && KInstruction.Cut(KInstruction.StrInto(left, Zeros(room)))
               == s[..Min(Min(|s|, VSTRING_MAX), if room > 0 then room - 1 else 0)]
  {
    var t := s[..Min(|s|, VSTRING_MAX)];
    var body := Added(Added(before, t), [0]) + more;
    assert body[|before|..] == t + [0] + more;
    KInstruction.StrLoad(t, more, room);
  }
}
