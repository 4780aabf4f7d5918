/** The replay recorder (kailleraclient.cpp), and what the reader of common/krec_reader.h makes of the
    records it wrote. */
module Replay {
  import opened Bytes
  import opened KrecReader

  const BUFFER_SIZE := 500
  const LONGEST := 0x7FFF

  // ----- what is recorded -----

  /** A recorded frame carries the result of the emulated call, a C short, negative on an error, and the
      caller's values array. */
  datatype Entry =
    | Frame(result: int, values: seq<byte>)
    | ChatLine(nick: seq<byte>, text: seq<byte>)
    | Dropped(nick: seq<byte>, player: u32)

  /** Entries the recorder can be handed: results are 16 bits wide, arrays hold what they promise, and C
      strings end at their first NUL. */
  ghost predicate Entered(e: Entry) {
    match e
    case Frame(n, values) => -0x8000 <= n < 0x8000 && n <= |values|
    case ChatLine(nick, text) => NoNul(nick) && NoNul(text)
    case Dropped(nick, _) => NoNul(nick)
  }

  function ShortBytes(n: int): (s: seq<byte>)
    ensures |s| == 2
  {
    Le16(n % 0x1_0000)
  }

  /** The first n bytes, none if n is negative. */
  function Taken(values: seq<byte>, n: int): seq<byte> {
    if n > 0 then values[..Min(n, |values|)] else []
  }

  function Encode(e: Entry): (s: seq<byte>)
    ensures |s| > 1
  {
    match e
    case Frame(n, values) => [0x12] + ShortBytes(n) + Taken(values, n)
    case ChatLine(nick, text) => [0x08] + (nick + [0]) + (text + [0])
    case Dropped(nick, player) => [0x14] + (nick + [0]) + Le32(player)
  }

  ghost predicate AllEntered(es: seq<Entry>) {
    forall i :: 0 <= i < |es| ==> Entered(es[i])
  }

  function Encodings(es: seq<Entry>): (ps: seq<seq<byte>>)
    ensures |ps| == |es| && forall i :: 0 <= i < |es| ==> ps[i] == Encode(es[i])
  {
    seq(|es|, i requires 0 <= i < |es| => Encode(es[i]))
  }

  function EncodeAll(es: seq<Entry>): seq<byte> {
    Flatten(Encodings(es))
  }

  /** The header: magic, application and game names, time, player number and count, player names. */
  function Header(app: seq<byte>, game: seq<byte>, time: u32, player: u32, players: u32,
                  names: seq<byte>): (h: seq<byte>)
    requires |app| == 128 && |game| == 128 && |names| == 128
    ensures |h| == HEADER_KRC1
  {
    MAGIC + app + game + Le32(time) + Le32(player) + Le32(players) + names
  }

  // ----- the recording buffer -----

  class Recorder {
    const buffer: array<byte>
    var position: nat
    var file: seq<byte>

    ghost predicate Valid()
      reads this
    {
      buffer.Length == BUFFER_SIZE && position <= BUFFER_SIZE
    }

    /** What is on disk and what waits in the buffer for the next write. */
    ghost function Recorded(): seq<byte>
      requires Valid()
      reads this, buffer
    {
      file + buffer[..position]
    }

    constructor (header: seq<byte>)
      ensures Valid() && fresh(buffer) && Recorded() == header && position == 0
    {
      buffer := new byte[BUFFER_SIZE](_ => 0);
      position, file := 0, header;
    }

    method PutChar(x: byte)
      requires Valid() && position + 1 <= BUFFER_SIZE
      modifies this`position, buffer
      ensures Valid() && Recorded() == old(Recorded()) + [x] && position == old(position) + 1
    {
      ghost var before := buffer[..position];
      buffer[position] := x;
      position := position + 1;
      assert buffer[..position] == before + [x];
    }

    method PutShort(n: int)
      requires Valid() && position + 2 <= BUFFER_SIZE && -0x8000 <= n < 0x8000
      modifies this`position, buffer
      ensures Valid() && Recorded() == old(Recorded()) + ShortBytes(n) && position == old(position) + 2
    {
      ghost var before := buffer[..position];
      var bytes := ShortBytes(n);
      buffer[position], buffer[position + 1] := bytes[0], bytes[1];
      position := position + 2;
      assert buffer[..position] == before + bytes;
    }

    method PutBytes(x: seq<byte>, len: int)
      requires Valid() && len <= |x| && position + len <= BUFFER_SIZE
      modifies this`position, buffer
      ensures Valid() && Recorded() == old(Recorded()) + Taken(x, len)
      ensures position == old(position) + if len > 0 then len else 0
    {
      ghost var before, start := buffer[..position], position;
      var t := 0;
      while t < len
        invariant 0 <= t && (t <= len || len < 0 == t) && position == start + t && Valid()
        invariant buffer[..position] == before + x[..t]
      {
        buffer[position] := x[t];
        position := position + 1;
        t := t + 1;
      }
    }

    method PutString(s: seq<byte>)
      requires Valid() && position + |s| + 1 <= BUFFER_SIZE
      modifies this`position, buffer
      ensures Valid() && Recorded() == old(Recorded()) + (s + [0])
      ensures position == old(position) + |s| + 1
    {
      PutBytes(s + [0], |s| + 1);
      assert (s + [0])[..|s| + 1] == s + [0];
    }

    /** The four bytes of an int. */
    method PutInt(n: u32)
      requires Valid() && position + 4 <= BUFFER_SIZE
      modifies this`position, buffer
      ensures Valid() && Recorded() == old(Recorded()) + Le32(n) && position == old(position) + 4
    {
      var bytes := Le32(n);
      PutBytes(bytes, 4);
      assert bytes[..4] == bytes;
    }

    method Write()
      requires Valid()
      modifies this
      ensures Valid() && Recorded() == old(Recorded()) && position == 0 && file == old(Recorded())
    {
      file := file + buffer[..position];
      position := 0;
    }

    method RecordFrame(siz: int, values: seq<byte>)
      requires Valid() && Entered(Frame(siz, values)) && position + |Encode(Frame(siz, values))| <= BUFFER_SIZE
      modifies this, buffer
      ensures Valid() && Recorded() == old(Recorded()) + Encode(Frame(siz, values)) && file == Recorded()
    {
      ghost var was := Recorded();
      PutChar(0x12);
      PutShort(siz);
      PutBytes(values, siz);
      Regrouped(was, [0x12], ShortBytes(siz));
      Regrouped(was, [0x12] + ShortBytes(siz), Taken(values, siz));
      Write();
    }

    method RecordChat(nick: seq<byte>, text: seq<byte>)
      requires Valid() && Entered(ChatLine(nick, text)) && position + |Encode(ChatLine(nick, text))| <= BUFFER_SIZE
      modifies this, buffer
      ensures Valid() && Recorded() == old(Recorded()) + Encode(ChatLine(nick, text)) && file == old(file)
    {
      ghost var was := Recorded();
      PutChar(0x08);
      PutString(nick);
      PutString(text);
      Regrouped(was, [0x08], nick + [0]);
      Regrouped(was, [0x08] + (nick + [0]), text + [0]);
    }

    method RecordDrop(nick: seq<byte>, player: u32)
      requires Valid() && Entered(Dropped(nick, player)) && position + |Encode(Dropped(nick, player))| <= BUFFER_SIZE
      modifies this, buffer
      ensures Valid() && Recorded() == old(Recorded()) + Encode(Dropped(nick, player)) && file == old(file)
    {
      ghost var was := Recorded();
      PutChar(0x14);
      PutString(nick);
      PutInt(player);
      Regrouped(was, [0x14], nick + [0]);
      Regrouped(was, [0x14] + (nick + [0]), Le32(player));
    }

    method Close()
      requires Valid()
      modifies this
      ensures Valid() && file == old(Recorded())
    {
      if position > 0 {
        Write();
      }
    }
  }

  // ----- reading it back -----

  /** The text a character array holds. */
  function CString(a: seq<byte>): seq<byte> {
    a[..NulAt(a, 0)]
  }

  /** What a call of next_record tells its caller, who offered room for the longest input. */
  function Told(report: Report, texts: Texts): Option<Entry> {
    match report.kind
    case Input => Some(Frame(report.length, report.copied))
    case Chat => Some(ChatLine(CString(texts.chatNick), CString(texts.chatMsg)))
    case Drop => Some(Dropped(CString(texts.dropNick), texts.dropPlayer))
    case _ => None
  }

  /** The entry as it can come back: the result is the length of the input. */
  function Meant(e: Entry): Entry {
    match e
    case Frame(n, values) => Frame(n, Taken(values, n))
    case _ => e
  }

  /** Entries that the reader takes whole. */
  predicate Readable(e: Entry) {
    match e
    case Frame(n, _) => n >= 0
    case ChatLine(nick, text) => |nick| < NICK_MAX && |text| < TEXT_MAX
    case Dropped(nick, _) => |nick| < NICK_MAX
  }

  ghost predicate AllReadable(es: seq<Entry>) {
    AllEntered(es) && forall i :: 0 <= i < |es| ==> Readable(es[i])
  }

  /** The piece stands in the buffer at p with 10 bytes or more behind it. */
  ghost predicate StandsAt(buffer: seq<byte>, p: nat, piece: seq<byte>) {
    p + |piece| + 10 <= |buffer| && buffer[p..p + |piece|] == piece
  }

  lemma StandsSplit(buffer: seq<byte>, p: nat, a: seq<byte>, b: seq<byte>)
    requires StandsAt(buffer, p, a + b)
    ensures StandsAt(buffer, p, a) && StandsAt(buffer, p + |a|, b)
  {
    var whole := buffer[p..p + |a + b|];
    assert whole[..|a|] == a && whole[|a|..] == b;
    assert buffer[p..p + |a|] == whole[..|a|] && buffer[p + |a|..p + |a| + |b|] == whole[|a|..];
  }

  /** A string field: all of it is read if it fits with its NUL, else max bytes of it. */
  lemma StrReadBack(buffer: seq<byte>, p: nat, s: seq<byte>, max: nat, dst: seq<byte>)
    requires NoNul(s) && StandsAt(buffer, p, s + [0]) && |dst| == max + 1
    ensures StrEnd(buffer, p, max) == p + Min(max, |s| + 1)
    ensures |s| < max ==> CString(StrLoaded(buffer, p, max, dst)) == s
  {
    StandsSplit(buffer, p, s, [0]);
    forall i | p <= i < p + |s|
      ensures buffer[i] != 0
    {
      assert buffer[i] == buffer[p..p + |s|][i - p];
    }
    assert buffer[p + |s|] == buffer[p + |s|..p + |s| + 1][0] == 0;
    NulFound(buffer, p, p + |s|);
    if |s| < max {
      var out := StrLoaded(buffer, p, max, dst);
      assert out[..|s|] == buffer[p..p + |s|] && out[|s|] == buffer[p + |s|];
      assert forall i :: 0 <= i < |s| ==> out[i] == out[..|s|][i];
      NulFound(out, 0, |s|);
    }
  }

  lemma ShortReadBack(buffer: seq<byte>, p: nat, n: int)
    requires StandsAt(buffer, p, ShortBytes(n))
    ensures Short(buffer, p) == n % 0x1_0000 && Loadable(buffer, p, 2) == 2
  {
    Le16RoundTrip(n % 0x1_0000);
  }

  lemma IntReadBack(buffer: seq<byte>, p: nat, n: u32)
    requires StandsAt(buffer, p, Le32(n))
    ensures Int(buffer, p) == n && Loadable(buffer, p, 4) == 4
  {
    Le32RoundTrip(n);
  }

  lemma FrameLayout(buffer: seq<byte>, p: nat, n: int, values: seq<byte>)
    requires Entered(Frame(n, values)) && StandsAt(buffer, p, Encode(Frame(n, values)))
    ensures buffer[p] == 0x12 && StandsAt(buffer, p + 1, ShortBytes(n))
    ensures n >= 0 ==> StandsAt(buffer, p + 3, values[..n])
    ensures p + 13 <= |buffer|
  {
    StandsSplit(buffer, p, [0x12] + ShortBytes(n), Taken(values, n));
    StandsSplit(buffer, p, [0x12], ShortBytes(n));
    assert buffer[p] == buffer[p..p + 1][0] == 0x12;
  }

  lemma SlicePrefix(s: seq<byte>, i: nat, n: nat, m: nat)
    requires m <= n && i + n <= |s|
    ensures s[i..i + m] == s[i..i + n][..m]
  {
  }

  lemma FrameReadBack(r: Reader, n: nat, values: seq<byte>, room: nat)
    requires Valid(r) && Entered(Frame(n, values)) && StandsAt(r.buffer, r.ptr + 1, ShortBytes(n))
    requires r.ptr + 13 <= |r.buffer| && StandsAt(r.buffer, r.ptr + 3, values[..n])
    ensures var (r', report) := InputRecord(r, room);
            r'.ptr == r.ptr + 3 + n && report.length == n && report.copied == values[..Min(n, room)]
  {
    ShortReadBack(r.buffer, r.ptr + 1, n);
    SlicePrefix(r.buffer, r.ptr + 3, n, Min(n, room));
    assert values[..n][..Min(n, room)] == values[..Min(n, room)];
  }

  /** The length of an error is at least 32768, more than any caller has room for. */
  lemma ErrorReadBack(r: Reader, n: int, values: seq<byte>, room: nat)
    requires Valid(r) && -0x8000 <= n < 0 && StandsAt(r.buffer, r.ptr + 1, ShortBytes(n)) && room <= LONGEST
    requires r.ptr + 13 <= |r.buffer|
    ensures InputRecord(r, room).1.length == n + 0x1_0000 && InputRecord(r, room).0.ptr > r.ptr + 3
  {
    ShortReadBack(r.buffer, r.ptr + 1, n);
    assert n % 0x1_0000 == n + 0x1_0000;
  }

  lemma ChatLayout(buffer: seq<byte>, p: nat, nick: seq<byte>, text: seq<byte>)
    requires Entered(ChatLine(nick, text)) && StandsAt(buffer, p, Encode(ChatLine(nick, text)))
    ensures |Encode(ChatLine(nick, text))| == |nick| + |text| + 3
    ensures buffer[p] == 0x08 && StandsAt(buffer, p + 1, nick + [0]) && StandsAt(buffer, p + 1 + |nick| + 1, text + [0])
  {
    StandsSplit(buffer, p, [0x08] + (nick + [0]), text + [0]);
    StandsSplit(buffer, p, [0x08], nick + [0]);
    assert buffer[p] == buffer[p..p + 1][0] == 0x08;
  }

  /** Where the strings of a chat record end for the reader: behind the second NUL, or before. */
  lemma ChatEnds(buffer: seq<byte>, p: nat, nick: seq<byte>, text: seq<byte>, q: nat, end: nat)
    requires NoNul(nick) && NoNul(text) && StandsAt(buffer, p, nick + [0])
             && StandsAt(buffer, p + |nick| + 1, text + [0])
    requires q == StrEnd(buffer, p, NICK_MAX) && end == StrEnd(buffer, q, TEXT_MAX)
    ensures |nick| < NICK_MAX ==> q == p + |nick| + 1 && end == q + Min(TEXT_MAX, |text| + 1)
    ensures |nick| >= NICK_MAX ==> end <= p + |nick| + 1
  {
    StrReadBack(buffer, p, nick, NICK_MAX, Zeros(NICK_MAX + 1));
    if |nick| < NICK_MAX {
      StrReadBack(buffer, q, text, TEXT_MAX, Zeros(TEXT_MAX + 1));
    } else {
      StringEndsAtNul(buffer, p, q, nick);
    }
  }

  /** And what the reader's arrays hold then, if both strings fit. */
  lemma ChatStrings(buffer: seq<byte>, p: nat, nick: seq<byte>, text: seq<byte>, nickTo: seq<byte>, textTo: seq<byte>)
    requires NoNul(nick) && NoNul(text) && StandsAt(buffer, p, nick + [0])
             && StandsAt(buffer, p + |nick| + 1, text + [0])
    requires |nick| < NICK_MAX && |text| < TEXT_MAX && |nickTo| == NICK_MAX + 1 && |textTo| == TEXT_MAX + 1
    ensures CString(StrLoaded(buffer, p, NICK_MAX, nickTo)) == nick
    ensures CString(StrLoaded(buffer, p + |nick| + 1, TEXT_MAX, textTo)) == text
  {
    StrReadBack(buffer, p, nick, NICK_MAX, nickTo);
    StrReadBack(buffer, p + |nick| + 1, text, TEXT_MAX, textTo);
  }

  ghost predicate ChatStands(r: Reader, nick: seq<byte>, text: seq<byte>) {
    && Valid(r) && NoNul(nick) && NoNul(text) && r.ptr < |r.buffer|
    && StandsAt(r.buffer, r.ptr + 1, nick + [0]) && StandsAt(r.buffer, r.ptr + |nick| + 2, text + [0])
  }

  lemma ChatReadBack(r: Reader, nick: seq<byte>, text: seq<byte>)
    requires ChatStands(r, nick, text)
    ensures var (r', report) := ChatRecord(r);
            if |nick| < NICK_MAX && |text| < TEXT_MAX then
              Told(report, r'.texts) == Some(ChatLine(nick, text)) && r'.ptr == r.ptr + |nick| + |text| + 3
            else
              r'.ptr < r.ptr + |nick| + |text| + 3
  {
    ChatPosition(r, nick, text);
    if |nick| < NICK_MAX && |text| < TEXT_MAX {
      ChatTexts(r, nick, text);
    }
  }

  lemma ChatPosition(r: Reader, nick: seq<byte>, text: seq<byte>)
    requires ChatStands(r, nick, text)
    ensures var end := r.ptr + |nick| + |text| + 3;
            if |nick| < NICK_MAX && |text| < TEXT_MAX then ChatRecord(r).0.ptr == end else ChatRecord(r).0.ptr < end
  {
    var q := StrEnd(r.buffer, r.ptr + 1, NICK_MAX);
    var end := StrEnd(r.buffer, q, TEXT_MAX);
    ChatEnds(r.buffer, r.ptr + 1, nick, text, q, end);
    ChatRecordEnds(r, q, end);
  }

  lemma ChatTexts(r: Reader, nick: seq<byte>, text: seq<byte>)
    requires ChatStands(r, nick, text) && |nick| < NICK_MAX && |text| < TEXT_MAX
    ensures Told(ChatRecord(r).1, ChatRecord(r).0.texts) == Some(ChatLine(nick, text))
  {
    var q := StrEnd(r.buffer, r.ptr + 1, NICK_MAX);
    ChatEnds(r.buffer, r.ptr + 1, nick, text, q, StrEnd(r.buffer, q, TEXT_MAX));
    ChatLoads(r, nick, text, q);
    ChatIsTold(r, nick, text, q);
  }

  lemma ChatRecordEnds(r: Reader, q: nat, end: nat)
    requires Valid(r) && r.ptr < |r.buffer|
    requires q == StrEnd(r.buffer, r.ptr + 1, NICK_MAX) && end == StrEnd(r.buffer, q, TEXT_MAX)
    ensures ChatRecord(r).0.ptr == end
  {
  }

  /** Both strings, as the reader's arrays hold them. */
  ghost predicate ChatLoaded(r: Reader, nick: seq<byte>, text: seq<byte>, q: nat) {
    && Valid(r) && r.ptr < |r.buffer| && q == StrEnd(r.buffer, r.ptr + 1, NICK_MAX)
    && CString(StrLoaded(r.buffer, r.ptr + 1, NICK_MAX, r.texts.chatNick)) == nick
    && CString(StrLoaded(r.buffer, q, TEXT_MAX, r.texts.chatMsg)) == text
  }

  lemma ChatLoads(r: Reader, nick: seq<byte>, text: seq<byte>, q: nat)
    requires ChatStands(r, nick, text) && |nick| < NICK_MAX && |text| < TEXT_MAX
    requires q == StrEnd(r.buffer, r.ptr + 1, NICK_MAX) == r.ptr + |nick| + 2
    ensures ChatLoaded(r, nick, text, q)
  {
    ChatStrings(r.buffer, r.ptr + 1, nick, text, r.texts.chatNick, r.texts.chatMsg);
  }

  lemma ChatIsTold(r: Reader, nick: seq<byte>, text: seq<byte>, q: nat)
    requires ChatLoaded(r, nick, text, q)
    ensures Told(ChatRecord(r).1, ChatRecord(r).0.texts) == Some(ChatLine(nick, text))
  {
  }

  /** Reading on in the middle of a string never passes its NUL. */
  lemma StringEndsAtNul(buffer: seq<byte>, p: nat, q: nat, s: seq<byte>)
    requires NoNul(s) && StandsAt(buffer, p, s + [0]) && p <= q <= p + |s|
    ensures forall max :: StrEnd(buffer, q, max) <= p + |s| + 1
  {
    assert buffer[p + |s|] == buffer[p..p + |s + [0]|][|s|] == 0;
    NulAtIsFirst(buffer, q);
    assert NulAt(buffer, q) <= p + |s|;
  }

  lemma DropLayout(buffer: seq<byte>, p: nat, nick: seq<byte>, player: u32)
    requires Entered(Dropped(nick, player)) && StandsAt(buffer, p, Encode(Dropped(nick, player)))
    ensures |Encode(Dropped(nick, player))| == |nick| + 6
    ensures buffer[p] == 0x14 && StandsAt(buffer, p + 1, nick + [0])
            && StandsAt(buffer, p + 1 + |nick| + 1, Le32(player))
  {
    StandsSplit(buffer, p, [0x14] + (nick + [0]), Le32(player));
    StandsSplit(buffer, p, [0x14], nick + [0]);
    assert buffer[p] == buffer[p..p + 1][0] == 0x14;
  }

  lemma DropReadBack(r: Reader, nick: seq<byte>, player: u32)
    requires Valid(r) && NoNul(nick) && r.ptr < |r.buffer|
    requires StandsAt(r.buffer, r.ptr + 1, nick + [0]) && StandsAt(r.buffer, r.ptr + |nick| + 2, Le32(player))
    ensures var (r', report) := DropRecord(r);
            if |nick| < NICK_MAX then
              Told(report, r'.texts) == Some(Dropped(nick, player)) && r'.ptr == r.ptr + |nick| + 6
            else
              r'.ptr < r.ptr + |nick| + 6
  {
    StrReadBack(r.buffer, r.ptr + 1, nick, NICK_MAX, r.texts.dropNick);
    if |nick| < NICK_MAX {
      IntReadBack(r.buffer, r.ptr + |nick| + 2, player);
    }
  }

  /** The next call of next_record, with room for the longest input, tells e. */
  ghost predicate Tells(r: Reader, e: Entry) {
    Valid(r) && var (r', report) := NextRecord(r, LONGEST); Told(report, r'.texts) == Some(e)
  }

  lemma FrameEntryIsReadBack(r: Reader, n: int, values: seq<byte>)
    requires Valid(r) && Entered(Frame(n, values)) && StandsAt(r.buffer, r.ptr, Encode(Frame(n, values)))
    ensures NextRecord(r, LONGEST).0.ptr == r.ptr + |Encode(Frame(n, values))| <==> n >= 0
    ensures n >= 0 ==> Tells(r, Meant(Frame(n, values)))
  {
    FrameLayout(r.buffer, r.ptr, n, values);
    if n >= 0 {
      FrameReadBack(r, n, values, LONGEST);
    } else {
      ErrorReadBack(r, n, values, LONGEST);
    }
  }

  lemma ChatEntryIsReadBack(r: Reader, nick: seq<byte>, text: seq<byte>)
    requires Valid(r) && Entered(ChatLine(nick, text)) && StandsAt(r.buffer, r.ptr, Encode(ChatLine(nick, text)))
    ensures NextRecord(r, LONGEST).0.ptr == r.ptr + |Encode(ChatLine(nick, text))| <==>
              |nick| < NICK_MAX && |text| < TEXT_MAX
    ensures |nick| < NICK_MAX && |text| < TEXT_MAX ==> Tells(r, ChatLine(nick, text))
  {
    ChatLayout(r.buffer, r.ptr, nick, text);
    ChatReadBack(r, nick, text);
    assert NextRecord(r, LONGEST) == ChatRecord(r);
  }

  lemma DropEntryIsReadBack(r: Reader, nick: seq<byte>, player: u32)
    requires Valid(r) && Entered(Dropped(nick, player)) && StandsAt(r.buffer, r.ptr, Encode(Dropped(nick, player)))
    ensures NextRecord(r, LONGEST).0.ptr == r.ptr + |Encode(Dropped(nick, player))| <==> |nick| < NICK_MAX
    ensures |nick| < NICK_MAX ==> Tells(r, Dropped(nick, player))
  {
    DropLayout(r.buffer, r.ptr, nick, player);
    DropReadBack(r, nick, player);
    assert NextRecord(r, LONGEST) == DropRecord(r);
  }

  /** A recorded entry that ends 10 bytes or more before the end of the file leaves the reader exactly
      behind it if and only if its result is not negative and its strings fit the reader's arrays with
      their NUL; and then it is read back unchanged. */
  lemma EntryIsReadBack(r: Reader, e: Entry)
    requires Valid(r) && Entered(e) && StandsAt(r.buffer, r.ptr, Encode(e))
    ensures NextRecord(r, LONGEST).0.ptr == r.ptr + |Encode(e)| <==> Readable(e)
    ensures Readable(e) ==> Tells(r, Meant(e))
  {
    match e
    case Frame(n, values) => FrameEntryIsReadBack(r, n, values);
    case ChatLine(nick, text) => ChatEntryIsReadBack(r, nick, text);
    case Dropped(nick, player) => DropEntryIsReadBack(r, nick, player);
  }

  /** A whole playback, entry by entry; a byte that begins no record is passed over. */
  function Playback(r: Reader): (es: seq<Entry>)
    requires Valid(r)
    decreases |r.buffer| - r.ptr
  {
    if AtEnd(r) then []
    else
      var (r', report) := NextRecord(r, LONGEST);
      var told := Told(report, r'.texts);
      (if told.Some? then [told.value] else []) + Playback(r')
  }

  function AllMeant(es: seq<Entry>): (ms: seq<Entry>)
    ensures |ms| == |es|
  {
    if es == [] then [] else [Meant(es[0])] + AllMeant(es[1..])
  }

  lemma PlaybackNext(r: Reader, e: Entry)
    requires Tells(r, e)
    ensures Playback(r) == [e] + Playback(NextRecord(r, LONGEST).0)
  {
  }

  lemma {:induction false} EntriesAreReadBack(r: Reader, es: seq<Entry>)
    requires Valid(r) && AllReadable(es) && StandsAt(r.buffer, r.ptr, EncodeAll(es))
    ensures AllMeant(es) <= Playback(r)
    decreases |es|
  {
    if es != [] {
      var next := NextRecord(r, LONGEST).0;
      PiecesStand(r.buffer, r.ptr, Encodings(es));
      assert Encodings(es)[1..] == Encodings(es[1..]);
      EntryIsReadBack(r, es[0]);
      ReadableRest(es);
      EntriesAreReadBack(next, es[1..]);
      PlaybackNext(r, Meant(es[0]));
      ConsPrefix(Meant(es[0]), AllMeant(es[1..]), Playback(next));
    }
  }

  lemma ReadableRest(es: seq<Entry>)
    requires AllReadable(es) && es != []
    ensures Readable(es[0]) && AllReadable(es[1..])
  {
  }

  lemma ConsPrefix<T>(x: T, a: seq<T>, b: seq<T>)
    requires a <= b
    ensures [x] + a <= [x] + b
  {
  }

  lemma PiecesStand(buffer: seq<byte>, p: nat, ps: seq<seq<byte>>)
    requires ps != [] && StandsAt(buffer, p, Flatten(ps))
    ensures StandsAt(buffer, p, ps[0]) && StandsAt(buffer, p + |ps[0]|, Flatten(ps[1..]))
  {
    StandsSplit(buffer, p, ps[0], Flatten(ps[1..]));
  }

  /** A recording, whatever was recorded after the given entries or cut off behind them, plays back those
      entries first, unchanged and in order, as long as 10 bytes follow them. */
  lemma RecordingIsPlayedBack(data: seq<byte>, header: seq<byte>, es: seq<Entry>, rest: seq<byte>)
    requires |header| == HEADER_KRC1 && header[..4] == MAGIC
    requires AllReadable(es) && |rest| >= 10 && data == header + (EncodeAll(es) + rest)
    ensures Open(data).Some? && AllMeant(es) <= Playback(Open(data).value)
  {
    assert data[..4] == header[..4];
    assert data[HEADER_KRC1..HEADER_KRC1 + |EncodeAll(es)|] == EncodeAll(es);
    EntriesAreReadBack(Open(data).value, es);
  }

  /** Every entry of a recording that ends 10 bytes or more before the end of the file is read back. */
  lemma RecordingIsReadBackUpToItsTail(header: seq<byte>, es: seq<Entry>, k: nat)
    requires |header| == HEADER_KRC1 && header[..4] == MAGIC
    requires AllReadable(es) && k <= |es| && |EncodeAll(es[k..])| >= 10
    ensures Open(header + EncodeAll(es)).Some?
    ensures AllMeant(es[..k]) <= Playback(Open(header + EncodeAll(es)).value)
  {
    EncodeAllSplits(es, k);
    RecordingIsPlayedBack(header + EncodeAll(es), header, es[..k], EncodeAll(es[k..]));
  }

  lemma EncodeAllSplits(es: seq<Entry>, k: nat)
    requires k <= |es|
    ensures EncodeAll(es) == EncodeAll(es[..k]) + EncodeAll(es[k..])
  {
    EncodingsSplit(es, k);
    FlattenConcat(Encodings(es[..k]), Encodings(es[k..]));
  }

  lemma EncodingsSplit(es: seq<Entry>, k: nat)
    requires k <= |es|
    ensures Encodings(es) == Encodings(es[..k]) + Encodings(es[k..])
  {
  }

  /** A frame whose call reported an error is written with a length of 65536 plus the (negative) result and no payload,
      and its reading swallows the records that follow, up to that many bytes. */
  lemma ErrorFrameSwallowsWhatFollows(r: Reader, n: int, values: seq<byte>, rest: seq<byte>)
    requires Valid(r) && -0x8000 <= n < 0 && |rest| >= 10
    requires r.buffer[r.ptr..] == Encode(Frame(n, values)) + rest
    ensures NextRecord(r, 0).0.ptr == r.ptr + 3 + Min(n + 0x1_0000, |rest|)
  {
    var e := Encode(Frame(n, values));
    assert r.buffer[r.ptr..r.ptr + 3] == r.buffer[r.ptr..][..3];
    assert (e + rest)[..3] == e;
    FrameLayout(r.buffer, r.ptr, n, values);
    ShortReadBack(r.buffer, r.ptr + 1, n);
  }

  const TITLE_MAX := 128

  /** A title field that holds a NUL is loaded as the string it holds. */
  lemma TitleReadBack(buffer: seq<byte>, p: nat, title: seq<byte>, dst: seq<byte>)
    requires |title| == TITLE_MAX && NulAt(title, 0) < TITLE_MAX && |dst| == TITLE_MAX + 1 && StandsAt(buffer, p, title)
    ensures CString(StrLoaded(buffer, p, TITLE_MAX, dst)) == CString(title)
  {
    var n := NulAt(title, 0);
    NulAtIsFirst(title, 0);
    assert title == (title[..n] + [0]) + title[n + 1..];
    StandsSplit(buffer, p, title[..n] + [0], title[n + 1..]);
    StrReadBack(buffer, p, title[..n], TITLE_MAX, dst);
  }

  /** The fields of the header as open_from_memory loads them: the titles of application and game, if they
      are terminated within their 128 bytes, and the player number and count. */
  lemma HeaderIsReadBack(app: seq<byte>, game: seq<byte>, time: u32, player: u32, players: u32, names: seq<byte>,
                         rest: seq<byte>, dst: seq<byte>)
    requires |app| == TITLE_MAX && |game| == TITLE_MAX && |names| == 128 && |dst| == TITLE_MAX + 1
    ensures var data := Header(app, game, time, player, players, names) + rest;
            && Open(data).Some? && Open(data).value.header == HEADER_KRC1
            && (NulAt(app, 0) < TITLE_MAX ==> CString(StrLoaded(data, 4, TITLE_MAX, dst)) == CString(app))
            && (NulAt(game, 0) < TITLE_MAX ==> CString(StrLoaded(data, 132, TITLE_MAX, dst)) == CString(game))
            && Int(data, 264) == player && Int(data, 268) == players
  {
    var data := Header(app, game, time, player, players, names) + rest;
    HeaderLayout(app, game, time, player, players, names, rest, data);
    if NulAt(app, 0) < TITLE_MAX {
      TitleReadBack(data, 4, app, dst);
    }
    if NulAt(game, 0) < TITLE_MAX {
      TitleReadBack(data, 132, game, dst);
    }
    IntReadBack(data, 264, player);
    IntReadBack(data, 268, players);
  }

  lemma HeaderLayout(app: seq<byte>, game: seq<byte>, time: u32, player: u32, players: u32, names: seq<byte>,
                     rest: seq<byte>, data: seq<byte>)
    requires |app| == TITLE_MAX && |game| == TITLE_MAX && |names| == 128
    requires data == Header(app, game, time, player, players, names) + rest
    ensures data[..4] == MAGIC && StandsAt(data, 4, app) && StandsAt(data, 132, game)
    ensures StandsAt(data, 264, Le32(player)) && StandsAt(data, 268, Le32(players))
  {
    assert data[..4] == MAGIC && data[4..132] == app && data[132..260] == game;
    assert data[264..268] == Le32(player) && data[268..272] == Le32(players);
  }
}
