/** Instructions of the Kaillera protocol (kcore/k_instruction.h): fields are stored at the back of a
    growing buffer and loaded from its front, and the whole travels as type, user name and body. */
module KInstruction {
  import opened Bytes

  const USER_MAX := 31
  const INVDNONE: byte := 0
  const SCRATCH := 0x100

  datatype Value = Value(kind: byte, user: seq<byte>, body: seq<byte>)

  // ----- strings at the front of a body -----

  /** Bytes a string at the front takes up: through its NUL, or all there is. */
  function StrLength(body: seq<byte>): (n: nat)
    ensures n <= |body| && (body != [] ==> n > 0)
  {
    var nul := NulAt(body, 0);
    if nul < |body| then nul + 1 else |body|
  }

  /** The destination of a string load: as much as fits, and a NUL. */
  function StrInto(body: seq<byte>, dst: seq<byte>): (r: seq<byte>)
    ensures |r| == |dst|
  {
    if dst == [] then dst
    else
      var n := Min(|dst| - 1, StrLength(body));
      body[..n] + [0] + dst[n + 1..]
  }

  // ----- on the wire -----

  ghost predicate Named(v: Value) {
    |v.user| <= USER_MAX && NoNul(v.user)
  }

  function Written(v: Value, maxLen: nat): seq<byte>
    requires |v.user| + 2 <= maxLen
  {
    [v.kind] + v.user + [0] + v.body[..Min(maxLen - (|v.user| + 2), |v.body|)]
  }

  /** A message without a NUL behind its first byte is malformed. */
  function ReadOff(msg: seq<byte>): Value {
    if msg == [] || NulAt(msg, 1) == |msg| then Value(INVDNONE, [], [])
    else
      var nul := NulAt(msg, 1);
      Value(msg[0], msg[1..1 + Min(nul - 1, USER_MAX)], msg[nul + 1..])
  }

  lemma SliceTwice(s: seq<byte>, i: nat, j: nat)
    requires i <= j <= |s|
    ensures s[i..][j - i..] == s[j..]
  {
  }

  lemma SplitAt(s: seq<byte>, a: seq<byte>, b: seq<byte>)
    requires s == a + b
    ensures a == s[..|a|] && b == s[|a|..]
  {
  }

  class Instruction {
    var kind: byte
    var user: seq<byte>
    var buffer: array<byte>
    var pos: nat

    ghost predicate Valid()
      reads this
    {
      0 < buffer.Length && pos <= buffer.Length && |user| <= USER_MAX
    }

    ghost function Body(): (b: seq<byte>)
      requires Valid()
      reads this, buffer
      ensures |b| == pos
    {
      buffer[..pos]
    }

    constructor ()
      ensures Valid() && fresh(buffer) && kind == INVDNONE && user == [] && Body() == []
    {
      kind, user, pos := INVDNONE, [], 0;
      buffer := new byte[16](_ => 0);
    }

    method EnsureSized(n: nat)
      requires Valid()
      modifies this`buffer
      ensures Valid() && buffer.Length >= n && Body() == old(Body()) && (buffer == old(buffer) || fresh(buffer))
    {
      if n > buffer.Length {
        var size := buffer.Length;
        while size < n
          invariant size >= buffer.Length > 0
          decreases n - size
        {
          size := size * 2;
        }
        var larger := new byte[size](_ => 0);
        forall i | 0 <= i < pos {
          larger[i] := buffer[i];
        }
        buffer := larger;
      }
    }

    method SetUsername(name: seq<byte>)
      requires Valid()
      modifies this`user
      ensures Valid() && user == name[..Min(|name|, USER_MAX)]
    {
      user := name[..Min(|name|, USER_MAX)];
    }

    method StoreBytes(x: seq<byte>)
      requires Valid()
      modifies this`buffer, this`pos, buffer
      ensures Valid() && Body() == old(Body()) + x && (buffer == old(buffer) || fresh(buffer))
    {
      EnsureSized(pos + |x|);
      forall i | 0 <= i < |x| {
        buffer[pos + i] := x[i];
      }
      pos := pos + |x|;
    }

    /** Takes n bytes off the front, or all there are. */
    method LoadBytes(n: nat) returns (x: seq<byte>)
      requires Valid()
      modifies this`pos, buffer
      ensures Valid() && x + Body() == old(Body()) && |x| == Min(n, old(pos))
    {
      x := [];
      if pos != 0 {
        var p := Min(n, pos);
        ghost var was := buffer[..pos];
        x := buffer[..p];
        pos := pos - p;
        forall i | 0 <= i < pos {
          buffer[i] := buffer[i + p];
        }
        assert buffer[..pos] == was[p..];
      }
    }

    method Skip(n: nat)
      requires Valid() && n <= pos
      modifies this`pos, buffer
      ensures Valid() && Body() == old(Body())[n..]
    {
      var left := n;
      while left > 0
        invariant 0 <= left <= n && Valid() && left <= pos && Body() == old(Body())[n - left..]
      {
        var x := LoadBytes(Min(SCRATCH, left));
        left := left - |x|;
      }
    }

    /** Finds the NUL of the string at the front, within the bytes there are. */
    method FindStrLength() returns (n: nat)
      requires Valid()
      ensures n == StrLength(Body())
    {
      ghost var body := Body();
      var nul := 0;
      while nul < pos && buffer[nul] != 0
        invariant nul <= pos && NulAt(body, 0) == NulAt(body, nul)
      {
        nul := nul + 1;
      }
      n := if nul < pos then nul + 1 else pos;
    }

    /** Consumes the string at the front, whatever the size of the destination: all of it, its NUL
        included, and nothing behind it. */
    method LoadStr(dst: seq<byte>) returns (out: seq<byte>)
      requires Valid()
      modifies this`pos, buffer
      ensures Valid() && Body() == old(Body())[StrLength(old(Body()))..]
      ensures out == StrInto(old(Body()), dst)
    {
      var consume := FindStrLength();
      if |dst| == 0 {
        Skip(consume);
        out := dst;
      } else {
        var n := Min(|dst| - 1, consume);
        var head := TakeThenSkip(n, consume);
        out := head + [0] + dst[n + 1..];
      }
    }

    /** Copies out the first n of the bytes to consume, and skips the others. */
    method TakeThenSkip(n: nat, consume: nat) returns (head: seq<byte>)
      requires Valid() && n <= consume <= pos
      modifies this`pos, buffer
      ensures Valid() && head == old(Body())[..n] && Body() == old(Body())[consume..]
    {
      ghost var body := Body();
      head := TakeBytes(n);
      SliceTwice(body, n, consume);
      Skip(consume - n);
    }

    method TakeBytes(n: nat) returns (x: seq<byte>)
      requires Valid() && n <= pos
      modifies this`pos, buffer
      ensures Valid() && x == old(Body())[..n] && Body() == old(Body())[n..]
    {
      x := [];
      if n > 0 {
        x := LoadBytes(n);
        SplitAt(old(Body()), x, Body());
      }
    }

    method WriteToMessage(maxLen: nat) returns (msg: seq<byte>)
      requires Valid() && |user| + 2 <= maxLen
      ensures msg == Written(Value(kind, user, Body()), maxLen)
    {
      var at := |user| + 2;
      var n := Min(maxLen - at, pos);
      msg := [kind] + user + [0] + buffer[..n];
    }

    method ReadFromMessage(msg: seq<byte>)
      requires Valid()
      modifies this, buffer
      ensures Valid() && Value(kind, user, Body()) == ReadOff(msg)
    {
      if |msg| == 0 {
        Reset();
        return;
      }
      var nul := NulAt(msg, 1);
      if nul == |msg| {
        Reset();
        return;
      }
      kind := msg[0];
      user := msg[1..1 + Min(nul - 1, USER_MAX)];
      pos := 0;
      StoreBytes(msg[nul + 1..]);
    }

    method Reset()
      requires Valid()
      modifies this`kind, this`user, this`pos, buffer
      ensures Valid() && buffer == old(buffer) && kind == INVDNONE && user == [] && pos == 0
    {
      kind, user, pos := INVDNONE, [], 0;
      buffer[0] := 0;
    }
  }

  // ----- the wire keeps an instruction -----

  /** What is read is what was written if and only if the body fits the message. */
  lemma ReadUndoesWrite(v: Value, maxLen: nat)
    requires Named(v) && |v.user| + 2 <= maxLen
    ensures ReadOff(Written(v, maxLen)) == v <==> |v.user| + 2 + |v.body| <= maxLen
    ensures ReadOff(Written(v, maxLen)) == v.(body := v.body[..Min(maxLen - (|v.user| + 2), |v.body|)])
  {
    var msg := Written(v, maxLen);
    var n := |v.user|;
    assert msg[1..1 + n] == v.user && msg[1 + n] == 0;
    forall i | 1 <= i < 1 + n
      ensures msg[i] != 0
    {
      assert msg[i] == v.user[i - 1];
    }
    NulFound(msg, 1, 1 + n);
    assert msg[n + 2..] == v.body[..Min(maxLen - (n + 2), |v.body|)];
  }

  // ----- fields come back in the order they were stored -----

  datatype Field =
    | CharField(c: byte)
    | ShortField(n: u16)
    | IntField(i: u32)
    | BytesField(x: seq<byte>)
    | StrField(s: seq<byte>)

  function Stored(f: Field): seq<byte> {
    match f
    case CharField(c) => [c]
    case ShortField(n) => Le16(n)
    case IntField(i) => Le32(i)
    case BytesField(x) => x
    case StrField(s) => s + [0]
  }

  function StoredAll(fs: seq<Field>): seq<byte> {
    if fs == [] then [] else Stored(fs[0]) + StoredAll(fs[1..])
  }

  /** How a reader asks for a field; `room` is the size of a string's destination. */
  datatype Ask = AskChar | AskShort | AskInt | AskBytes(n: nat) | AskStr(room: nat)

  ghost predicate Fitting(f: Field, a: Ask) {
    match f
    case CharField(_) => a == AskChar
    case ShortField(_) => a == AskShort
    case IntField(_) => a == AskInt
    case BytesField(x) => a == AskBytes(|x|)
    case StrField(s) => a.AskStr? && NoNul(s)
  }

  function Cut(s: seq<byte>): seq<byte> {
    s[..NulAt(s, 0)]
  }

  /** What a load yields, and what it leaves. */
  function Load(body: seq<byte>, a: Ask): (Field, seq<byte>) {
    match a
    case AskChar => (CharField(if |body| >= 1 then body[0] else 0), body[Min(1, |body|)..])
    case AskShort => (ShortField(if |body| >= 2 then FromLe16(body[..2]) else 0), body[Min(2, |body|)..])
    case AskInt => (IntField(if |body| >= 4 then FromLe32(body[..4]) else 0), body[Min(4, |body|)..])
    case AskBytes(n) => (BytesField(body[..Min(n, |body|)]), body[Min(n, |body|)..])
    case AskStr(room) => (StrField(Cut(StrInto(body, Zeros(room)))), body[StrLength(body)..])
  }

  /** A string comes back shortened to its destination; everything else as it was. */
  function Loaded(f: Field, a: Ask): Field {
    if f.StrField? && a.AskStr? then StrField(f.s[..Min(|f.s|, if a.room > 0 then a.room - 1 else 0)]) else f
  }

  lemma LoadUndoesStore(f: Field, a: Ask, rest: seq<byte>)
    requires Fitting(f, a)
    ensures Load(Stored(f) + rest, a) == (Loaded(f, a), rest)
  {
    var body := Stored(f) + rest;
    match f
    case CharField(c) =>
    case ShortField(n) =>
      assert body[..2] == Le16(n);
      Le16RoundTrip(n);
    case IntField(i) =>
      assert body[..4] == Le32(i);
      Le32RoundTrip(i);
    case BytesField(x) =>
    case StrField(s) =>
      StrLoad(s, rest, a.room);
  }

  lemma StrLoad(s: seq<byte>, rest: seq<byte>, room: nat)
    requires NoNul(s)
    ensures var body := s + [0] + rest;
            && StrLength(body) == |s| + 1 && body[|s| + 1..] == rest
            && Cut(StrInto(body, Zeros(room))) == s[..Min(|s|, if room > 0 then room - 1 else 0)]
  {
    var body := s + [0] + rest;
    NulFound(body, 0, |s|);
    if room > 0 {
      var out := StrInto(body, Zeros(room));
      var n := Min(|s|, room - 1);
      assert forall i :: 0 <= i < n ==> out[i] == s[i];
      NulFound(out, 0, n);
    }
  }

  /** Any list of fields is loaded back in order, each through its NUL where it is a string, however small
      the destinations the reader offers, so that the fields behind stay aligned. */
  lemma {:induction false} FieldsComeBackInOrder(fs: seq<Field>, asks: seq<Ask>, k: nat)
    requires |asks| == |fs| && k < |fs| && forall i :: 0 <= i < |fs| ==> Fitting(fs[i], asks[i])
    ensures Load(BodyAfter(StoredAll(fs), asks[..k]), asks[k]).0 == Loaded(fs[k], asks[k])
    ensures BodyAfter(StoredAll(fs), asks) == []
    decreases |fs|
  {
    LoadUndoesStore(fs[0], asks[0], StoredAll(fs[1..]));
    assert asks[1..][..|asks| - 1] == asks[1..];
    if k > 0 {
      assert asks[..k][1..] == asks[1..][..k - 1] && asks[..k][0] == asks[0];
      FieldsComeBackInOrder(fs[1..], asks[1..], k - 1);
    } else if |fs| > 1 {
      FieldsComeBackInOrder(fs[1..], asks[1..], 0);
    }
  }

  /** What is left after a number of loads. */
  function BodyAfter(body: seq<byte>, asks: seq<Ask>): seq<byte>
    decreases |asks|
  {
    if asks == [] then body else BodyAfter(Load(body, asks[0]).1, asks[1..])
  }
}
