/** The replay file reader (common/krec_reader.h): records are classified one at a time, and a caller
    chooses how many payload bytes it wants copied out. */
module KrecReader {
  import opened Bytes

  const NICK_MAX := 100
  const TEXT_MAX := 500
  const HEADER_KRC0 := 272
  const HEADER_KRC1 := 400
  const MAGIC: seq<byte> := [0x4B, 0x52, 0x43, 0x31]

  datatype RecordType = Eof | Unknown | Chat | Input | Drop

  /** The character arrays last_chat_nick and so on, with one byte more for the terminator that load_str
      writes behind a string of full length. */
  datatype Texts = Texts(chatNick: seq<byte>, chatMsg: seq<byte>, dropNick: seq<byte>, dropPlayer: u32)

  datatype Reader = Reader(buffer: seq<byte>, header: nat, ptr: nat, frames: nat, texts: Texts)

  /** What next_record reports: the type, the record's real payload length, and the bytes copied out. */
  datatype Report = Report(kind: RecordType, length: nat, copied: seq<byte>)

  ghost predicate Valid(r: Reader) {
    && r.header <= |r.buffer| && r.ptr <= |r.buffer|
    && |r.texts.chatNick| == NICK_MAX + 1 && |r.texts.chatMsg| == TEXT_MAX + 1 && |r.texts.dropNick| == NICK_MAX + 1
  }

  function Blank(): Texts {
    Texts(Zeros(NICK_MAX + 1), Zeros(TEXT_MAX + 1), Zeros(NICK_MAX + 1), 0)
  }

  /** open_from_memory, as far as the record stream is concerned. */
  function Open(data: seq<byte>): (r: Option<Reader>)
    ensures r.Some? ==> Valid(r.value) && r.value.ptr == r.value.header && r.value.frames == 0
  {
    if |data| < HEADER_KRC0 then None
    else
      var header := if data[..4] == MAGIC then HEADER_KRC1 else HEADER_KRC0;
      if |data| < header then None else Some(Reader(data, header, header, 0, Blank()))
  }

  /** load_bytes: nothing at all once 10 or fewer bytes remain, else as many as there are. */
  function Loadable(buffer: seq<byte>, p: nat, n: nat): (k: nat)
    requires p <= |buffer|
    ensures k <= n && p + k <= |buffer|
  {
    if p + 10 < |buffer| then Min(n, |buffer| - p) else 0
  }

  function AtEnd(r: Reader): bool {
    r.ptr + 10 >= |r.buffer|
  }

  /** load_str asks for the string and its terminator, at most max bytes, and at most one byte more than
      remain. */
  function StrAsked(buffer: seq<byte>, p: nat, max: nat): (n: nat)
    requires p <= |buffer|
    ensures n <= max && n <= |buffer| - p + 1
  {
    Min(Min(max, NulAt(buffer, p) - p + 1), |buffer| - p + 1)
  }

  /** The destination array afterwards: the bytes that could be loaded, and a terminator. */
  function StrLoaded(buffer: seq<byte>, p: nat, max: nat, dst: seq<byte>): (r: seq<byte>)
    requires p <= |buffer| && |dst| == max + 1
    ensures |r| == |dst|
  {
    var n := StrAsked(buffer, p, max);
    var k := Loadable(buffer, p, n);
    (buffer[p..p + k] + dst[k..])[n := 0]
  }

  function StrEnd(buffer: seq<byte>, p: nat, max: nat): (q: nat)
    requires p <= |buffer|
    ensures p <= q <= |buffer|
  {
    p + Loadable(buffer, p, StrAsked(buffer, p, max))
  }

  /** A little-endian field of two bytes; what cannot be loaded reads as zero. */
  function Short(buffer: seq<byte>, p: nat): u16
    requires p <= |buffer|
  {
    if Loadable(buffer, p, 2) == 2 then FromLe16(buffer[p..p + 2]) else 0
  }

  function Int(buffer: seq<byte>, p: nat): u32
    requires p <= |buffer|
  {
    if Loadable(buffer, p, 4) == 4 then FromLe32(buffer[p..p + 4]) else 0
  }

  /** The input branch: at most room bytes are copied out, the rest of the payload is skipped. */
  function InputRecord(r: Reader, room: nat): (Reader, Report)
    requires Valid(r) && r.ptr < |r.buffer|
  {
    var p := r.ptr + 1;
    var l := Short(r.buffer, p);
    var q := p + Loadable(r.buffer, p, 2);
    var n := Min(l, room);
    var k := if n > 0 then Loadable(r.buffer, q, n) else 0;
    var skip := Min(l - n, |r.buffer| - (q + k));
    (r.(ptr := q + k + skip, frames := r.frames + 1), Report(Input, l, r.buffer[q..q + k]))
  }

  /** A drop: the player's name and number. */
  function DropRecord(r: Reader): (Reader, Report)
    requires Valid(r) && r.ptr < |r.buffer|
  {
    var p := r.ptr + 1;
    var q := StrEnd(r.buffer, p, NICK_MAX);
    var texts := r.texts.(dropNick := StrLoaded(r.buffer, p, NICK_MAX, r.texts.dropNick),
                          dropPlayer := Int(r.buffer, q));
    (r.(ptr := q + Loadable(r.buffer, q, 4), texts := texts), Report(Drop, 0, []))
  }

  /** A chat line: who said it, and the text. */
  function ChatRecord(r: Reader): (Reader, Report)
    requires Valid(r) && r.ptr < |r.buffer|
  {
    var p := r.ptr + 1;
    var q := StrEnd(r.buffer, p, NICK_MAX);
    var texts := r.texts.(chatNick := StrLoaded(r.buffer, p, NICK_MAX, r.texts.chatNick),
                          chatMsg := StrLoaded(r.buffer, q, TEXT_MAX, r.texts.chatMsg));
    (r.(ptr := StrEnd(r.buffer, q, TEXT_MAX), texts := texts), Report(Chat, 0, []))
  }

  /** next_record; a caller that passes no buffer has no room. */
  function NextRecord(r: Reader, room: nat): (res: (Reader, Report))
    requires Valid(r)
    ensures Valid(res.0) && res.0.buffer == r.buffer && res.0.header == r.header
    ensures res.1.kind.Eof? <==> AtEnd(r)
    ensures res.1.kind.Eof? ==> res.0 == r
    ensures !res.1.kind.Eof? ==> r.ptr < res.0.ptr
    ensures res.0.frames == r.frames + if res.1.kind.Input? then 1 else 0
  {
    if AtEnd(r) then (r, Report(Eof, 0, []))
    else
      match r.buffer[r.ptr]
      case 0x12 => InputRecord(r, room)
      case 0x14 => DropRecord(r)
      case 0x08 => ChatRecord(r)
      case _ => (r.(ptr := r.ptr + 1), Report(Unknown, 0, []))
  }

  /** The last ten bytes of a file are never loaded: an input whose payload begins among them is reported with its
      length and nothing else, one whose length stands among them as empty; any other is loaded as far as there is
      room and file. */
  lemma TailIsNotLoaded(r: Reader, room: nat)
    requires Valid(r) && !AtEnd(r) && r.buffer[r.ptr] == 0x12
    ensures var left, report := |r.buffer| - r.ptr, NextRecord(r, room).1;
            && left > 10
            && (left == 11 ==> report == Report(Input, 0, []))
            && (left > 11 ==> report.length == FromLe16(r.buffer[r.ptr + 1..r.ptr + 3]))
            && (11 < left <= 13 ==> report.copied == [])
            && (left > 13 ==> report.copied == r.buffer[r.ptr + 3..r.ptr + 3 + Min(Min(report.length, room), left - 3)])
  {
  }

  function Rewound(r: Reader): (r': Reader)
    requires Valid(r)
    ensures Valid(r')
  {
    r.(ptr := r.header, frames := 0)
  }

  /** Reading on until `target` frames were consumed or the buffer is drained. */
  function ReadTo(r: Reader, target: int, room: nat): (r': Reader)
    requires Valid(r)
    ensures Valid(r') && r'.buffer == r.buffer && r'.header == r.header
    decreases |r.buffer| - r.ptr
  {
    if r.frames >= target || AtEnd(r) then r else ReadTo(NextRecord(r, room).0, target, room)
  }

  /** Reading everything there is. */
  function ReadAll(r: Reader, room: nat): (r': Reader)
    requires Valid(r)
    ensures Valid(r') && AtEnd(r')
    decreases |r.buffer| - r.ptr
  {
    if AtEnd(r) then r else ReadAll(NextRecord(r, room).0, room)
  }

  /** The reports of a whole reading, with the room offered to each call. */
  function Reports(r: Reader, rooms: seq<nat>): (reports: seq<Report>)
    requires Valid(r)
    ensures |reports| == |rooms|
    decreases |rooms|
  {
    if rooms == [] then []
    else
      var (r', report) := NextRecord(r, rooms[0]);
      [report] + Reports(r', rooms[1..])
  }

  // ----- the reader as an object -----

  class KrecFile {
    var buffer: seq<byte>
    var header: nat
    var ptr: nat
    var frames: nat
    var texts: Texts

    ghost function State(): Reader
      reads this
    {
      Reader(buffer, header, ptr, frames, texts)
    }

    constructor (data: seq<byte>)
      requires Open(data).Some?
      ensures State() == Open(data).value
    {
      buffer := data;
      header := if data[..4] == MAGIC then HEADER_KRC1 else HEADER_KRC0;
      ptr := if data[..4] == MAGIC then HEADER_KRC1 else HEADER_KRC0;
      frames, texts := 0, Blank();
    }

    method LoadBytes(n: nat) returns (out: seq<byte>)
      requires ptr <= |buffer|
      modifies this`ptr
      ensures ptr == old(ptr) + Loadable(buffer, old(ptr), n) && out == buffer[old(ptr)..ptr]
    {
      out := [];
      if ptr + 10 < |buffer| {
        var p := Min(n, |buffer| - ptr);
        out := buffer[ptr..ptr + p];
        ptr := ptr + p;
      }
    }

    method LoadStr(max: nat, dst: seq<byte>) returns (out: seq<byte>)
      requires ptr <= |buffer| && |dst| == max + 1
      modifies this`ptr
      ensures ptr == StrEnd(buffer, old(ptr), max) && out == StrLoaded(buffer, old(ptr), max, dst)
    {
      var n := Min(max, NulAt(buffer, ptr) - ptr + 1);
      n := Min(n, |buffer| - ptr + 1);
      var loaded := LoadBytes(n);
      out := (loaded + dst[|loaded|..])[n := 0];
    }

    method LoadShort() returns (x: u16)
      requires ptr <= |buffer|
      modifies this`ptr
      ensures x == Short(buffer, old(ptr)) && ptr == old(ptr) + Loadable(buffer, old(ptr), 2)
    {
      var bytes := LoadBytes(2);
      x := if |bytes| == 2 then FromLe16(bytes) else 0;
    }

    method LoadInt() returns (x: u32)
      requires ptr <= |buffer|
      modifies this`ptr
      ensures x == Int(buffer, old(ptr)) && ptr == old(ptr) + Loadable(buffer, old(ptr), 4)
    {
      var bytes := LoadBytes(4);
      x := if |bytes| == 4 then FromLe32(bytes) else 0;
    }

    method NextInput(room: nat) returns (report: Report)
      requires Valid(State()) && ptr < |buffer|
      modifies this`ptr, this`frames
      ensures (State(), report) == InputRecord(old(State()), room)
    {
      ptr := ptr + 1;
      var l := LoadShort();
      var copied: seq<byte> := buffer[ptr..ptr];
      if l > 0 {
        var n := Min(l, room);
        if n > 0 {
          copied := LoadBytes(n);
        }
        var remaining := l - n;
        if remaining > 0 {
          var skip := Min(remaining, |buffer| - ptr);
          if skip > 0 {
            ptr := ptr + skip;
          }
        }
      }
      frames := frames + 1;
      report := Report(Input, l, copied);
    }

    method Next(room: nat) returns (report: Report)
      requires Valid(State())
      modifies this
      ensures (State(), report) == NextRecord(old(State()), room)
    {
      if ptr + 10 >= |buffer| {
        return Report(Eof, 0, []);
      }
      var b := buffer[ptr];
      if b == 0x12 {
        report := NextInput(room);
        return;
      }
      ptr := ptr + 1;
      if b == 0x14 {
        var nick := LoadStr(NICK_MAX, texts.dropNick);
        var player := LoadInt();
        texts := texts.(dropNick := nick, dropPlayer := player);
        return Report(Drop, 0, []);
      }
      if b == 0x08 {
        var nick := LoadStr(NICK_MAX, texts.chatNick);
        var msg := LoadStr(TEXT_MAX, texts.chatMsg);
        texts := texts.(chatNick := nick, chatMsg := msg);
        return Report(Chat, 0, []);
      }
      return Report(Unknown, 0, []);
    }

    method SeekToFrame(target: int)
      requires Valid(State())
      modifies this
      ensures State() == ReadTo(Rewound(old(State())), target, 0)
    {
      ptr := header;
      frames := 0;
      ghost var goal := ReadTo(State(), target, 0);
      while frames < target
        invariant Valid(State()) && ReadTo(State(), target, 0) == goal
        decreases |buffer| - ptr
      {
        var report := Next(0);
        if report.kind.Eof? {
          break;
        }
      }
    }

    /** The position is restored; last_chat_nick and so on are not. */
    method CountTotalFrames() returns (total: nat)
      requires Valid(State())
      modifies this
      ensures total == ReadAll(Rewound(old(State())), 0).frames
      ensures State() == old(State()).(texts := ReadAll(Rewound(old(State())), 0).texts)
    {
      var savedPtr, savedFrames := ptr, frames;
      ptr := header;
      frames := 0;
      ghost var goal := ReadAll(State(), 0);
      while true
        invariant Valid(State()) && ReadAll(State(), 0) == goal && buffer == old(buffer) && header == old(header)
        decreases |buffer| - ptr
      {
        var report := Next(0);
        if report.kind.Eof? {
          break;
        }
      }
      total := frames;
      ptr := savedPtr;
      frames := savedFrames;
    }
  }

  // ----- skipping and copying agree -----

  /** Two readers of the same file that have consumed the same frames and stand at the same record, or
      are both done. */
  ghost predicate SamePlace(a: Reader, b: Reader) {
    && Valid(a) && Valid(b)
    && a.buffer == b.buffer && a.header == b.header && a.frames == b.frames
    && (a.ptr == b.ptr || (AtEnd(a) && AtEnd(b)))
  }

  /** Copying stops for good within ten bytes of the end, but skipping does not. */
  lemma InputRoomDoesNotMatter(a: Reader, b: Reader, roomA: nat, roomB: nat)
    requires SamePlace(a, b) && a.ptr == b.ptr < |a.buffer|
    ensures var (a', ra) := InputRecord(a, roomA);
            var (b', rb) := InputRecord(b, roomB);
            SamePlace(a', b') && ra.kind == rb.kind && ra.length == rb.length
  {
  }

  lemma TextsDoNotMatter(a: Reader, b: Reader)
    requires SamePlace(a, b) && a.ptr == b.ptr < |a.buffer|
    ensures DropRecord(a).0.ptr == DropRecord(b).0.ptr && ChatRecord(a).0.ptr == ChatRecord(b).0.ptr
  {
  }

  /** However much room each caller offers, one record is the same to both, and leaves them together. */
  lemma RoomDoesNotMatter(a: Reader, b: Reader, roomA: nat, roomB: nat)
    requires SamePlace(a, b)
    ensures var (a', ra) := NextRecord(a, roomA);
            var (b', rb) := NextRecord(b, roomB);
            SamePlace(a', b') && ra.kind == rb.kind && ra.length == rb.length
  {
    if !AtEnd(a) {
      if a.buffer[a.ptr] == 0x12 {
        InputRoomDoesNotMatter(a, b, roomA, roomB);
      } else {
        TextsDoNotMatter(a, b);
      }
    }
  }

  ghost predicate SameKinds(a: seq<Report>, b: seq<Report>) {
    |a| == |b| && forall i :: 0 <= i < |a| ==> a[i].kind == b[i].kind && a[i].length == b[i].length
  }

  /** Skipping and copying reads of a file, with any room offered at each record, see the same record
      types and lengths from beginning to end. */
  lemma {:induction false} ReadingsAgree(a: Reader, b: Reader, roomsA: seq<nat>, roomsB: seq<nat>)
    requires SamePlace(a, b) && |roomsA| == |roomsB|
    ensures SameKinds(Reports(a, roomsA), Reports(b, roomsB))
    decreases |roomsA|
  {
    if roomsA == [] {
    } else {
      RoomDoesNotMatter(a, b, roomsA[0], roomsB[0]);
      ReadingsAgree(NextRecord(a, roomsA[0]).0, NextRecord(b, roomsB[0]).0, roomsA[1..], roomsB[1..]);
    }
  }

  lemma {:induction false} ReadToAgrees(a: Reader, b: Reader, target: int, roomA: nat, roomB: nat)
    requires SamePlace(a, b)
    ensures SamePlace(ReadTo(a, target, roomA), ReadTo(b, target, roomB))
    decreases |a.buffer| - a.ptr
  {
    if a.frames >= target || AtEnd(a) {
    } else {
      RoomDoesNotMatter(a, b, roomA, roomB);
      ReadToAgrees(NextRecord(a, roomA).0, NextRecord(b, roomB).0, target, roomA, roomB);
    }
  }

  /** Seeking, from wherever the reader stands, ends where playing from the start with any copying room
      ends once it has served that many frames; and it ends there with that many frames consumed unless
      the file has fewer. */
  lemma SeekEqualsPlaying(r: Reader, data: seq<byte>, target: nat, room: nat)
    requires Open(data).Some? && Valid(r) && r.buffer == data && r.header == Open(data).value.header
    ensures var sought := ReadTo(Rewound(r), target, 0);
            && SamePlace(sought, ReadTo(Open(data).value, target, room))
            && (sought.frames == target || (sought.frames < target && AtEnd(sought)))
  {
    ReadToAgrees(Rewound(r), Open(data).value, target, 0, room);
    ReadToCounts(Rewound(r), target, 0);
  }

  lemma {:induction false} ReadToCounts(r: Reader, target: int, room: nat)
    requires Valid(r) && r.frames <= target
    ensures var r' := ReadTo(r, target, room);
            r'.frames == target || (r'.frames < target && AtEnd(r'))
    decreases |r.buffer| - r.ptr
  {
    if r.frames >= target || AtEnd(r) {
    } else {
      ReadToCounts(NextRecord(r, room).0, target, room);
    }
  }

  /** The frame count of a file is the number of frames its full playback serves, and a seek reaches a
      frame exactly when it is at most that count. */
  lemma CountEqualsFullPlayback(data: seq<byte>, target: nat, room: nat)
    requires Open(data).Some?
    ensures var start := Open(data).value;
            var total := ReadAll(start, 0).frames;
            && total == ReadAll(start, room).frames
            && (ReadTo(start, target, 0).frames == target <==> target <= total)
  {
    var start := Open(data).value;
    ReadAllAgrees(start, start, 0, room);
    ReadToThenAll(start, target, 0);
    ReadToCounts(start, target, 0);
  }

  lemma {:induction false} ReadAllAgrees(a: Reader, b: Reader, roomA: nat, roomB: nat)
    requires SamePlace(a, b)
    ensures ReadAll(a, roomA).frames == ReadAll(b, roomB).frames
    decreases |a.buffer| - a.ptr
  {
    if AtEnd(a) {
    } else {
      RoomDoesNotMatter(a, b, roomA, roomB);
      ReadAllAgrees(NextRecord(a, roomA).0, NextRecord(b, roomB).0, roomA, roomB);
    }
  }

  /** Reading on from where a bounded reading stopped completes it. */
  lemma {:induction false} ReadToThenAll(r: Reader, target: int, room: nat)
    requires Valid(r)
    ensures ReadAll(ReadTo(r, target, room), room) == ReadAll(r, room)
    ensures ReadTo(r, target, room).frames <= ReadAll(r, room).frames
    decreases |r.buffer| - r.ptr
  {
    if r.frames >= target || AtEnd(r) {
      FramesOnlyGrow(r, room);
    } else {
      ReadToThenAll(NextRecord(r, room).0, target, room);
    }
  }

  lemma {:induction false} FramesOnlyGrow(r: Reader, room: nat)
    requires Valid(r)
    ensures r.frames <= ReadAll(r, room).frames
    decreases |r.buffer| - r.ptr
  {
    if !AtEnd(r) {
      FramesOnlyGrow(NextRecord(r, room).0, room);
    }
  }

  // ----- what counting does to the texts -----

  /** A reading from here reports a chat or a drop. */
  ghost predicate HasText(r: Reader)
    requires Valid(r)
    decreases |r.buffer| - r.ptr
  {
    && !AtEnd(r)
    && var (next, report) := NextRecord(r, 0);
       report.kind.Chat? || report.kind.Drop? || HasText(next)
  }

  /** Whatever the last chat and drop were, they are still the same after counting the frames of the file. */
  ghost predicate CountKeepsTexts(r: Reader)
    requires Valid(r)
  {
    forall texts: Texts :: Valid(r.(texts := texts)) ==> ReadAll(Rewound(r.(texts := texts)), 0).texts == texts
  }

  /** A string that was loaded is terminated. */
  ghost predicate Terminated(texts: Texts) {
    0 in texts.chatNick || 0 in texts.dropNick
  }

  lemma LoadedStrIsTerminated(buffer: seq<byte>, p: nat, max: nat, dst: seq<byte>)
    requires p <= |buffer| && |dst| == max + 1
    ensures 0 in StrLoaded(buffer, p, max, dst)
  {
    assert StrLoaded(buffer, p, max, dst)[StrAsked(buffer, p, max)] == 0;
  }

  lemma RecordTerminates(r: Reader)
    requires Valid(r) && !AtEnd(r)
    ensures var (next, report) := NextRecord(r, 0);
            && (report.kind.Chat? || report.kind.Drop? || Terminated(r.texts) ==> Terminated(next.texts))
            && (!report.kind.Chat? && !report.kind.Drop? ==> next.texts == r.texts)
  {
    if r.buffer[r.ptr] == 0x14 {
      LoadedStrIsTerminated(r.buffer, r.ptr + 1, NICK_MAX, r.texts.dropNick);
    } else if r.buffer[r.ptr] == 0x08 {
      LoadedStrIsTerminated(r.buffer, r.ptr + 1, NICK_MAX, r.texts.chatNick);
    }
  }

  lemma {:induction false} ReadingTerminates(r: Reader)
    requires Valid(r)
    ensures HasText(r) || Terminated(r.texts) ==> Terminated(ReadAll(r, 0).texts)
    ensures !HasText(r) ==> ReadAll(r, 0).texts == r.texts
    decreases |r.buffer| - r.ptr
  {
    if !AtEnd(r) {
      RecordTerminates(r);
      ReadingTerminates(NextRecord(r, 0).0);
    }
  }

  lemma {:induction false} HasTextAgrees(a: Reader, b: Reader)
    requires SamePlace(a, b)
    ensures HasText(a) == HasText(b)
    decreases |a.buffer| - a.ptr
  {
    if !AtEnd(a) {
      RoomDoesNotMatter(a, b, 0, 0);
      HasTextAgrees(NextRecord(a, 0).0, NextRecord(b, 0).0);
    }
  }

  /** Counting the frames of a file leaves the last chat and drop as they were, whatever they were, if and
      only if the file has no chat and no drop record. */
  lemma CountKeepsTextsOfPlainFiles(r: Reader)
    requires Valid(r)
    ensures CountKeepsTexts(r) <==> !HasText(Rewound(r))
  {
    var ones := Texts(seq(NICK_MAX + 1, _ => 1), seq(TEXT_MAX + 1, _ => 1), seq(NICK_MAX + 1, _ => 1), 0);
    var unterminated := r.(texts := ones);
    HasTextAgrees(Rewound(r), Rewound(unterminated));
    ReadingTerminates(Rewound(unterminated));
    if !HasText(Rewound(r)) {
      forall texts: Texts | Valid(r.(texts := texts))
        ensures ReadAll(Rewound(r.(texts := texts)), 0).texts == texts
      {
        HasTextAgrees(Rewound(r), Rewound(r.(texts := texts)));
        ReadingTerminates(Rewound(r.(texts := texts)));
      }
    } else {
      assert !Terminated(ones) && Valid(unterminated);
    }
  }

  /** A file of one drop record: counting its frames right after opening it leaves the drop's player name. */
  lemma CountLeavesTheDrop(data: seq<byte>)
    requires data == Zeros(HEADER_KRC0) + [0x14, 0x41, 0, 1, 0, 0, 0] + Zeros(10)
    ensures Open(data).Some?
    ensures var start := Open(data).value;
            && start.texts.dropNick[0] == 0 && ReadAll(Rewound(start), 0).texts.dropNick[0] == 0x41
            && !CountKeepsTexts(start)
  {
    assert data[..4][0] == 0 != MAGIC[0];
    var start := Open(data).value;
    assert Rewound(start) == start;
    var p := HEADER_KRC0 + 1;
    assert data[p] == 0x41 && data[p + 1] == 0 && NulAt(data, p) == p + 1;
    var next := NextRecord(start, 0).0;
    assert AtEnd(next);
    CountKeepsTextsOfPlainFiles(start);
  }
}
