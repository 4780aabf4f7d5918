/** From the host's emulator to the spectator's: the records the host pushes (common/n02_stream.cpp), as
    the spectator's player takes them off the fetched bytes (player.cpp). */
module LivePath {
  import opened Bytes
  import Stream
  import StreamRuns
  import Watch
  import opened WatchRecords
  import WatchPlayer

  /** What the host hands to n02_stream_push_frame, _chat and _drop. */
  datatype Push =
    | Frame(values: seq<byte>)
    | ChatLine(nick: seq<byte>, text: seq<byte>)
    | Dropped(nick: seq<byte>, player: u32)

  function RecordOf(p: Push): (r: seq<byte>)
    ensures 0 < |r| <= Stream.RECORD_MAX
  {
    match p
    case Frame(values) => Stream.FrameRecord(values)
    case ChatLine(nick, text) => Stream.ChatRecord(nick, text)
    case Dropped(nick, player) => Stream.DropRecord(nick, player)
  }

  function RecordsOf(ps: seq<Push>): (rs: seq<seq<byte>>)
    ensures |rs| == |ps| && forall i :: 0 <= i < |ps| ==> rs[i] == RecordOf(ps[i])
  {
    seq(|ps|, i requires 0 <= i < |ps| => RecordOf(ps[i]))
  }

  ghost predicate CStrings(p: Push) {
    match p
    case Frame(_) => true
    case ChatLine(nick, text) => NoNul(nick) && NoNul(text)
    case Dropped(nick, _) => NoNul(nick)
  }

  /** Pushes whose record the player takes whole: nick and text must fit its arrays with their NUL, the
      text after it was cut to what the nick leaves of the record. A nick so long that it leaves no
      room at all is taken whole too: the player reads the end of the nick as the text. */
  predicate Aligned(p: Push) {
    match p
    case Frame(_) => true
    case ChatLine(nick, text) =>
      || (|nick| < NICK_CAP && (|text| < TEXT_CAP || |nick| + TEXT_CAP >= Stream.RECORD_MAX - 2))
      || |nick| >= Stream.RECORD_MAX - 2
    case Dropped(nick, _) => |nick| < NICK_CAP
  }

  ghost predicate Playable(ps: seq<Push>) {
    forall i :: 0 <= i < |ps| ==> CStrings(ps[i]) && Aligned(ps[i])
  }

  function Carried(values: seq<byte>): seq<byte> {
    values[..Min(|values|, Stream.RECORD_MAX - 3)]
  }

  // ----- one record -----

  /** A string of at least n bytes without a NUL, and then, if it has exactly n, a NUL. */
  lemma {:induction false} CStrOfString(s: seq<byte>, p: nat, n: nat, cap: nat)
    requires p + n <= |s| && forall i :: p <= i < p + n ==> s[i] != 0
    requires n < cap ==> p + n < |s| && s[p + n] == 0
    ensures CStr(s, p, cap) == Some(Min(cap, n + 1))
    decreases n
  {
    if n > 0 && cap > 0 {
      CStrOfString(s, p + 1, n - 1, cap - 1);
    }
  }

  /** What BoundedCString leaves of a string: its bytes, then a NUL. */
  lemma BoundedBytes(s: seq<byte>, cap: int)
    requires cap > 0 && NoNul(s)
    ensures var b := Stream.BoundedCString(s, cap);
            && |b| == Min(|s|, cap - 1) + 1 && b[|b| - 1] == 0
            && forall i :: 0 <= i < |b| - 1 ==> b[i] != 0
  {
  }

  /** What is left of a string that is copied into cap bytes with its NUL. */
  function Kept(s: seq<byte>, cap: int): seq<byte> {
    if cap <= 0 then [] else s[..Min(|s|, cap - 1)]
  }

  lemma Slices(head: seq<byte>, b: seq<byte>, rest: seq<byte>)
    ensures var a := head + b + rest;
            a[|head|..|head| + |b|] == b && a[|head| + |b|..] == rest && a[..|head|] == head
  {
  }

  lemma SliceOfSlice(a: seq<byte>, p: nat, q: nat, r: nat)
    requires p <= r <= q <= |a|
    ensures a[p..q][..r - p] == a[p..r]
  {
  }

  /** The NUL behind a string is found where it was put, and the string before it. */
  lemma StringFound(a: seq<byte>, p: nat, k: seq<byte>)
    requires NoNul(k) && p + |k| < |a| && a[p..p + |k|] == k && a[p + |k|] == 0
    ensures NulAt(a, p) == p + |k|
  {
    forall i | p <= i < p + |k|
      ensures a[i] != 0
    {
      assert a[i] == a[p..p + |k|][i - p];
    }
    NulFound(a, p, p + |k|);
  }

  lemma StringIsReadOff(head: seq<byte>, k: seq<byte>, rest: seq<byte>)
    requires NoNul(k)
    ensures var a := head + (k + [0]) + rest;
            var n := NulAt(a, |head|);
            n == |head| + |k| < |a| && a[|head|..n] == k && a[n + 1..] == rest
  {
    var b := k + [0];
    var a := head + b + rest;
    Slices(head, b, rest);
    SliceOfSlice(a, |head|, |head| + |b|, |head| + |k|);
    assert a[|head| + |k|] == a[|head|..|head| + |b|][|k|];
    StringFound(a, |head|, k);
  }

  lemma KeptHasNoNul(s: seq<byte>, cap: int)
    requires NoNul(s)
    ensures NoNul(Kept(s, cap)) && (cap > 0 ==> Stream.BoundedCString(s, cap) == Kept(s, cap) + [0])
  {
  }

  /** Nick and text can be read off a chat record: each is the string given, cut to what the record holds. */
  lemma ChatComesBack(nick: seq<byte>, text: seq<byte>, a: seq<byte>, n: nat)
    requires NoNul(nick) && NoNul(text) && a == Stream.ChatRecord(nick, text) && n == NulAt(a, 1)
    ensures a[0] == 0x08 && n < |a| && a[1..n] == Kept(nick, Stream.RECORD_MAX - 1)
    ensures n + 1 < Stream.RECORD_MAX ==>
              NulAt(a, n + 1) == |a| - 1 && a[n + 1..|a| - 1] == Kept(text, Stream.RECORD_MAX - (n + 1))
    ensures n + 1 == Stream.RECORD_MAX ==> |a| == n + 1
  {
    KeptHasNoNul(nick, Stream.RECORD_MAX - 1);
    var k := Kept(nick, Stream.RECORD_MAX - 1);
    var rest := Stream.RECORD_MAX - 2 - |k|;
    KeptHasNoNul(text, rest);
    StringIsReadOff([0x08], k, Stream.BoundedCString(text, rest));
    assert a == [0x08] + (k + [0]) + Stream.BoundedCString(text, rest);
    if rest > 0 {
      StringIsReadOff([0x08] + (k + [0]), Kept(text, rest), []);
      assert a == [0x08] + (k + [0]) + (Kept(text, rest) + [0]) + [];
    }
  }

  /** And nick and player number off a drop record, the number if the nick leaves it room. */
  lemma DropComesBack(nick: seq<byte>, player: u32, a: seq<byte>, n: nat)
    requires NoNul(nick) && a == Stream.DropRecord(nick, player) && n == NulAt(a, 1)
    ensures a[0] == 0x14 && n < |a| && a[1..n] == Kept(nick, Stream.RECORD_MAX - 1)
    ensures |nick| <= Stream.RECORD_MAX - 6 ==> |a| == n + 5 && FromLe32(a[n + 1..]) == player
    ensures |nick| > Stream.RECORD_MAX - 6 ==> |a| == n + 1
  {
    KeptHasNoNul(nick, Stream.RECORD_MAX - 1);
    var k := Kept(nick, Stream.RECORD_MAX - 1);
    var rest := if |k| + 6 <= Stream.RECORD_MAX then Le32(player) else [];
    StringIsReadOff([0x14], k, rest);
    assert a == [0x14] + (k + [0]) + rest;
    Le32RoundTrip(player);
  }

  lemma FrameIsWhole(values: seq<byte>)
    ensures var a := Stream.FrameRecord(values);
            RecordAt(a, 0) == Input(|a|) && Payload(a, 0) == Carried(values)
  {
    var a := Stream.FrameRecord(values);
    var v := Carried(values);
    assert a == [0x12] + Le16(|v|) + v;
    Le16RoundTrip(|v|);
    assert a[1..3] == Le16(|v|);
    assert a[3..] == v;
  }

  lemma DropIsWhole(nick: seq<byte>, player: u32)
    requires NoNul(nick)
    ensures var a := Stream.DropRecord(nick, player);
            if |nick| < NICK_CAP then RecordAt(a, 0) == Drop(|a|)
            else RecordAt(a, 0).Cut? || Width(RecordAt(a, 0)) < |a|
  {
    var b := Stream.BoundedCString(nick, Stream.RECORD_MAX - 1);
    BoundedBytes(nick, Stream.RECORD_MAX - 1);
    var a := Stream.DropRecord(nick, player);
    assert a[..1 + |b|] == [0x14] + b;
    assert forall i :: 1 <= i < 1 + |b| ==> a[i] == a[..1 + |b|][i] == b[i - 1];
    CStrOfString(a, 1, |b| - 1, NICK_CAP);
  }

  lemma ChatBytes(nick: seq<byte>, text: seq<byte>)
    requires NoNul(nick) && NoNul(text)
    ensures var a := Stream.ChatRecord(nick, text);
            var n := Min(|nick|, Stream.RECORD_MAX - 2);
            var m := Min(|text|, Stream.RECORD_MAX - n - 3);
            && |a| == n + 2 + (if n < Stream.RECORD_MAX - 2 then m + 1 else 0) && a[0] == 0x08 && a[n + 1] == 0
            && (forall i :: 1 <= i < n + 1 ==> a[i] != 0)
            && (n < Stream.RECORD_MAX - 2 ==> a[|a| - 1] == 0 && forall i :: n + 2 <= i < |a| - 1 ==> a[i] != 0)
  {
    var b := Stream.BoundedCString(nick, Stream.RECORD_MAX - 1);
    BoundedBytes(nick, Stream.RECORD_MAX - 1);
    var rest := Stream.RECORD_MAX - 1 - |b|;
    if rest > 0 {
      BoundedBytes(text, rest);
    }
    var c := Stream.BoundedCString(text, rest);
    var a := Stream.ChatRecord(nick, text);
    assert a == [0x08] + b + c;
    assert forall i :: 1 <= i < 1 + |b| ==> a[i] == b[i - 1];
    assert forall i :: 1 + |b| <= i < |a| ==> a[i] == c[i - 1 - |b|];
  }

  /** The two strings that the player takes a chat record to be. */
  lemma ChatStrings(nick: seq<byte>, text: seq<byte>) returns (n: nat, m: nat)
    requires NoNul(nick) && NoNul(text)
    ensures var a := Stream.ChatRecord(nick, text);
            && a[0] == 0x08 && CStr(a, 1, NICK_CAP) == Some(n) && CStr(a, 1 + n, TEXT_CAP) == Some(m)
            && 1 + n + m <= |a| && (1 + n + m == |a| <==> Aligned(ChatLine(nick, text)))
  {
    var a := Stream.ChatRecord(nick, text);
    ChatBytes(nick, text);
    var k := Min(|nick|, Stream.RECORD_MAX - 2);
    CStrOfString(a, 1, k, NICK_CAP);
    if k < NICK_CAP {
      CStrOfString(a, k + 2, |a| - k - 3, TEXT_CAP);
      n, m := k + 1, Min(TEXT_CAP, |a| - k - 2);
    } else {
      CStrOfString(a, 1 + NICK_CAP, k - NICK_CAP, TEXT_CAP);
      n, m := NICK_CAP, Min(TEXT_CAP, k - NICK_CAP + 1);
    }
  }

  lemma ChatIsWhole(nick: seq<byte>, text: seq<byte>)
    requires NoNul(nick) && NoNul(text)
    ensures var a := Stream.ChatRecord(nick, text);
            if Aligned(ChatLine(nick, text)) then RecordAt(a, 0) == Chat(|a|)
            else RecordAt(a, 0).Cut? || Width(RecordAt(a, 0)) < |a|
  {
    var n, m := ChatStrings(nick, text);
    ChatOfStrings(Stream.ChatRecord(nick, text), n, m);
  }

  lemma ChatOfStrings(a: seq<byte>, n: nat, m: nat)
    requires a != [] && a[0] == 0x08 && CStr(a, 1, NICK_CAP) == Some(n) && CStr(a, 1 + n, TEXT_CAP) == Some(m)
    ensures RecordAt(a, 0) == Chat(1 + n + m)
  {
  }

  // ----- a stretch of records -----

  /** The bytes of a record, and the frame it carries if it is an input. */
  datatype Piece = Piece(bytes: seq<byte>, frame: Option<seq<byte>>)

  ghost predicate Whole(p: Piece) {
    var r := RecordAt(p.bytes, 0);
    && p.bytes != [] && !r.Cut? && !r.Unknown? && Width(r) == |p.bytes| <= Stream.RECORD_MAX
    && p.frame == if r.Input? then Some(Payload(p.bytes, 0)) else None
  }

  function BytesOf(ps: seq<Piece>): seq<byte> {
    if ps == [] then [] else ps[0].bytes + BytesOf(ps[1..])
  }

  /** The n-th of the frames that the pieces carry. */
  function NthFrame(ps: seq<Piece>, n: nat): Option<seq<byte>> {
    if ps == [] then None
    else if ps[0].frame.Some? && n == 0 then ps[0].frame
    else NthFrame(ps[1..], FramesLeft(ps[0], n))
  }

  /** How many frames are still to pass behind p, of n to pass before it. */
  function FramesLeft(p: Piece, n: nat): nat {
    if p.frame.Some? && n > 0 then n - 1 else n
  }

  ghost predicate IsNthFrame(ps: seq<Piece>, n: nat, payload: seq<byte>) {
    NthFrame(ps, n) == Some(payload)
  }

  lemma PieceIsThere(s: seq<byte>, off: nat, p: Piece)
    requires Whole(p) && StretchOf(p.bytes, s, off)
    ensures RecordAt(s, off) == RecordAt(p.bytes, 0)
    ensures p.frame.Some? ==> RecordAt(s, off).Input? && Payload(s, off) == p.frame.value
  {
    RecordInStretch(p.bytes, s, off, 0);
    if p.frame.Some? {
      SliceInStretch(p.bytes, s, off, 3, |p.bytes|);
    }
  }

  lemma NthInputAtPiece(s: seq<byte>, off: nat, p: Piece, n: nat)
    requires Whole(p) && StretchOf(p.bytes, s, off)
    ensures NthInput(s, off, n) ==
            if p.frame.Some? && n == 0 then p.frame else NthInput(s, off + |p.bytes|, FramesLeft(p, n))
  {
    PieceIsThere(s, off, p);
  }

  /** What remains of a record that the stream has not all of yet cannot be taken for a record. */
  lemma TailIsCut(s: seq<byte>, off: nat, p: Piece)
    requires Whole(p) && off <= |s| && |s| - off < |p.bytes| && StretchOf(s[off..], p.bytes, 0)
    ensures RecordAt(s, off).Cut?
  {
    var t := s[off..];
    RecordInStretch(t, p.bytes, 0, 0);
    RecordInStretch(t, s, off, 0);
  }

  lemma PrefixSplits(s: seq<byte>, off: nat, a: seq<byte>, rest: seq<byte>)
    requires off <= |s| && s[off..] <= a + rest
    ensures off + |a| <= |s| ==> StretchOf(a, s, off) && s[off + |a|..] <= rest
    ensures off + |a| > |s| ==> StretchOf(s[off..], a, 0)
  {
    var t := s[off..];
    assert t == (a + rest)[..|t|];
    if |t| >= |a| {
      assert t[..|a|] == a;
      forall i | 0 <= i < |a|
        ensures a[i] == s[off + i]
      {
        assert t[i] == s[off + i];
      }
      assert s[off + |a|..] == t[|a|..] == rest[..|t| - |a|];
    } else {
      assert t == a[..|t|];
    }
  }

  ghost predicate AllWhole(ps: seq<Piece>) {
    ps != [] ==> Whole(ps[0]) && AllWhole(ps[1..])
  }

  /** From off on, s is the given pieces, one behind the other, as far as it goes. */
  ghost predicate Carries(s: seq<byte>, off: nat, ps: seq<Piece>)
    decreases |ps|
  {
    if ps == [] then off == |s|
    else if off + |ps[0].bytes| <= |s| then StretchOf(ps[0].bytes, s, off) && Carries(s, off + |ps[0].bytes|, ps[1..])
    else off <= |s| && StretchOf(s[off..], ps[0].bytes, 0)
  }

  /** From off on, s is all of the given pieces. */
  ghost predicate CarriesAll(s: seq<byte>, off: nat, ps: seq<Piece>)
    decreases |ps|
  {
    if ps == [] then off == |s|
    else StretchOf(ps[0].bytes, s, off) && CarriesAll(s, off + |ps[0].bytes|, ps[1..])
  }

  lemma {:induction false} PrefixCarries(s: seq<byte>, off: nat, ps: seq<Piece>)
    requires off <= |s| && s[off..] <= BytesOf(ps)
    ensures Carries(s, off, ps)
    ensures s[off..] == BytesOf(ps) ==> CarriesAll(s, off, ps)
    decreases |ps|
  {
    if ps != [] {
      PrefixSplits(s, off, ps[0].bytes, BytesOf(ps[1..]));
      if off + |ps[0].bytes| <= |s| {
        PrefixJoins(s, off, ps[0].bytes, BytesOf(ps[1..]));
        PrefixCarries(s, off + |ps[0].bytes|, ps[1..]);
      }
    }
  }

  /** Where the stream goes on with the given pieces, as far as it goes, the inputs the player finds are
      the frames they carry, in order. */
  lemma {:induction false} InputsAreTheFrames(s: seq<byte>, off: nat, ps: seq<Piece>, n: nat)
    requires Carries(s, off, ps) && AllWhole(ps)
    ensures NthInput(s, off, n).None? || NthInput(s, off, n) == NthFrame(ps, n)
    decreases |ps|
  {
    if ps == [] || off + |ps[0].bytes| > |s| {
      NoInputInTail(s, off, ps, n);
    } else {
      NthInputAtPiece(s, off, ps[0], n);
      InputsAreTheFrames(s, off + |ps[0].bytes|, ps[1..], FramesLeft(ps[0], n));
    }
  }

  lemma NoInputInTail(s: seq<byte>, off: nat, ps: seq<Piece>, n: nat)
    requires Carries(s, off, ps) && AllWhole(ps) && (ps == [] || off + |ps[0].bytes| > |s|)
    ensures NthInput(s, off, n).None?
  {
    if ps != [] {
      TailIsCut(s, off, ps[0]);
    }
  }

  /** And if the stream has all the pieces, every frame is found. */
  lemma {:induction false} EveryFrameIsFound(s: seq<byte>, off: nat, ps: seq<Piece>, n: nat)
    requires CarriesAll(s, off, ps) && AllWhole(ps)
    ensures NthInput(s, off, n) == NthFrame(ps, n)
    decreases |ps|
  {
    if ps != [] {
      NthInputAtPiece(s, off, ps[0], n);
      EveryFrameIsFound(s, off + |ps[0].bytes|, ps[1..], FramesLeft(ps[0], n));
    }
  }

  /** Whole pieces are plain records. */
  lemma {:induction false} PiecesArePlain(s: seq<byte>, off: nat, ps: seq<Piece>)
    requires CarriesAll(s, off, ps) && AllWhole(ps)
    ensures Plain(s, off, |s|)
    decreases |ps|
  {
    if ps != [] {
      PieceIsThere(s, off, ps[0]);
      PiecesArePlain(s, off + |ps[0].bytes|, ps[1..]);
    }
  }

  lemma PrefixJoins(s: seq<byte>, off: nat, a: seq<byte>, rest: seq<byte>)
    requires StretchOf(a, s, off)
    ensures s[off..] == a + rest <==> s[off + |a|..] == rest
  {
    assert s[off..] == a + s[off + |a|..];
  }

  // ----- the pieces that pushes become -----

  function PieceOf(p: Push): Piece {
    Piece(RecordOf(p), if p.Frame? then Some(Carried(p.values)) else None)
  }

  function PiecesOf(ps: seq<Push>): (r: seq<Piece>)
    ensures |r| == |ps| && forall i :: 0 <= i < |ps| ==> r[i] == PieceOf(ps[i])
  {
    seq(|ps|, i requires 0 <= i < |ps| => PieceOf(ps[i]))
  }

  lemma PushIsWhole(p: Push)
    requires CStrings(p)
    ensures Whole(PieceOf(p)) <==> Aligned(p)
  {
    match p
    case Frame(values) => FrameIsWhole(values);
    case ChatLine(nick, text) => ChatIsWhole(nick, text);
    case Dropped(nick, player) => DropIsWhole(nick, player);
  }

  /** Wherever the record of a push stands in a stream, the player takes exactly its bytes if and only if
      the push is aligned. */
  lemma PushIsTakenWhole(s: seq<byte>, off: nat, p: Push)
    requires CStrings(p) && StretchOf(RecordOf(p), s, off)
    ensures Width(RecordAt(s, off)) == |RecordOf(p)| <==> Aligned(p)
  {
    PushIsWhole(p);
    RecordInStretch(RecordOf(p), s, off, 0);
    if !Aligned(p) {
      ShortOrCut(p);
    }
  }

  lemma ShortOrCut(p: Push)
    requires CStrings(p) && !Aligned(p)
    ensures RecordAt(RecordOf(p), 0).Cut? || Width(RecordAt(RecordOf(p), 0)) < |RecordOf(p)|
  {
    match p
    case ChatLine(nick, text) => ChatIsWhole(nick, text);
    case Dropped(nick, player) => DropIsWhole(nick, player);
  }

  lemma {:induction false} PushesAreWhole(ps: seq<Push>)
    requires Playable(ps)
    ensures AllWhole(PiecesOf(ps))
    decreases |ps|
  {
    if ps != [] {
      PushIsWhole(ps[0]);
      PushesAreWhole(ps[1..]);
      assert PiecesOf(ps)[1..] == PiecesOf(ps[1..]);
    }
  }

  lemma {:induction false} BytesOfPushes(ps: seq<Push>)
    ensures BytesOf(PiecesOf(ps)) == Flatten(RecordsOf(ps))
    decreases |ps|
  {
    if ps != [] {
      assert PiecesOf(ps)[1..] == PiecesOf(ps[1..]);
      assert RecordsOf(ps)[1..] == RecordsOf(ps[1..]);
      BytesOfPushes(ps[1..]);
    }
  }

  // ----- end to end -----

  function PickPushes(ps: seq<Push>, ids: seq<nat>): (r: seq<Push>)
    requires forall i :: 0 <= i < |ids| ==> ids[i] < |ps|
    ensures |r| == |ids| && forall i :: 0 <= i < |ids| ==> r[i] == ps[ids[i]]
  {
    seq(|ids|, i requires 0 <= i < |ids| => ps[ids[i]])
  }

  /** A spectator reads what the server held at some moment, or less. */
  ghost predicate Fetched(s: seq<byte>, w: StreamRuns.World, offset: int) {
    s <= w.server.log && 0 <= offset <= |s|
  }

  /** The pieces that the pushes after a capture in w0 became, those dropped until w left out. */
  ghost predicate Later(w0: StreamRuns.World, w: StreamRuns.World, ps: seq<Push>, later: seq<Piece>) {
    && StreamRuns.Later(w0, w) && w.pushed == RecordsOf(ps) && w0.kept <= w.kept
    && (forall i :: |w0.kept| <= i < |w.kept| ==> |w0.pushed| <= w.kept[i] < |ps|)
    && later == PiecesOf(PickPushes(ps, w.kept[|w0.kept|..]))
  }

  /** There are such pieces unless a record kept at the capture was dropped. */
  lemma LaterExists(w0: StreamRuns.World, w: StreamRuns.World, ps: seq<Push>)
    requires StreamRuns.Later(w0, w) && w.pushed == RecordsOf(ps) && w0.kept <= w.kept
    ensures exists later :: Later(w0, w, ps, later)
  {
    StreamRuns.OffsetIsExactUnlessADropHitsIt(w0, w);
    assert Later(w0, w, ps, PiecesOf(PickPushes(ps, w.kept[|w0.kept|..])));
  }

  lemma FetchedIsLater(w0: StreamRuns.World, w: StreamRuns.World, ps: seq<Push>, later: seq<Piece>, s: seq<byte>)
    requires Later(w0, w, ps, later) && w.server.refused == {} && Playable(ps) && Fetched(s, w, w0.bytesEnqueued)
    ensures AllWhole(later) && Carries(s, w0.bytesEnqueued, later)
    ensures !w.session.active && w.queue == [] ==> CarriesAll(w.server.log, w0.bytesEnqueued, later)
  {
    StreamRuns.SpectatorStartsWithTheNextRecord(w0, w);
    var ids := w.kept[|w0.kept|..];
    var picked := PickPushes(ps, ids);
    assert StreamRuns.Pick(w.pushed, ids) == RecordsOf(picked);
    assert s[w0.bytesEnqueued..] <= w.server.log[w0.bytesEnqueued..];
    BytesOfPushes(picked);
    PushesAreWhole(picked);
    PrefixCarries(s, w0.bytesEnqueued, later);
    PrefixCarries(w.server.log, w0.bytesEnqueued, later);
  }

  /** A spectator's fetching thread and buffer, last started at off and short of no memory since, on a server
      whose log has come to `log`. */
  ghost predicate Spectator(v: Watch.World, log: seq<byte>, off: nat) {
    Watch.Reachable(v) && v.start == off && v.lost == 0 && v.log <= log
  }

  /** The stream as far as the spectator's offset has come in it. */
  function StreamOf(v: Watch.World): seq<byte> {
    v.log[..Min(v.offset, |v.log|)]
  }

  /** The player that jumped to live sees that stream, and its next call is due at off with the frame counted:
      whatever chunks the pulls yield, what they have yielded and what is still buffered are its bytes from off on. */
  lemma SpectatorSeesTheStream(v: Watch.World, log: seq<byte>, off: nat, frame: int, feed: seq<seq<byte>>)
    requires Spectator(v, log, off) && Flatten(feed) == v.pulled + v.data
    ensures v.offset <= |v.log| ==>
              off <= |StreamOf(v)| && WatchPlayer.DueCall(WatchPlayer.JumpedToLive(frame, off, feed), StreamOf(v),
                                                          WatchPlayer.Origin(off, frame), frame, off,
                                                          OutcomeAt(StreamOf(v), off))
    ensures v.offset > |v.log| ==> Flatten(feed) == []
  {
    Watch.PullsAreTheLog(v);
    if v.offset <= |v.log| {
      var s := StreamOf(v);
      StartIsReached(v);
      assert s[off..] == v.log[off..v.offset] == [] + Flatten(feed);
      BoundaryItself(s, off, frame);
    }
  }

  lemma StartIsReached(v: Watch.World)
    requires Watch.Reachable(v)
    ensures v.start <= v.offset
  {
    var es :| Watch.AllAllowed(Watch.START, es) && v == Watch.Run(Watch.START, es);
    Watch.RunKeepsInv(Watch.START, es);
  }

  /** A spectator of a session, from off on, the offset of a state captured in w0, and the records of the
      pushes that were made after the capture and not dropped. */
  ghost predicate Watched(w0: StreamRuns.World, ps: seq<Push>, later: seq<Piece>, v: Watch.World, off: nat) {
    exists w: StreamRuns.World :: WatchedIn(w0, w, ps, later, v, off)
  }

  ghost predicate WatchedIn(w0: StreamRuns.World, w: StreamRuns.World, ps: seq<Push>, later: seq<Piece>, v: Watch.World,
                            off: nat) {
    && Later(w0, w, ps, later) && w.server.refused == {} && Playable(ps)
    && off == w0.bytesEnqueued && Spectator(v, w.server.log, off)
  }

  lemma StreamIsFetched(w0: StreamRuns.World, w: StreamRuns.World, ps: seq<Push>, later: seq<Piece>, v: Watch.World,
                        off: nat)
    requires WatchedIn(w0, w, ps, later, v, off) && off <= |StreamOf(v)|
    ensures Fetched(StreamOf(v), w, off)
  {
  }

  lemma NoInputAhead(s: seq<byte>, p: nat, n: nat)
    requires p > |s|
    ensures NthInput(s, p, n).None?
  {
  }

  /** Whatever the spectator has fetched past the offset of a state captured in w0, the inputs in it are
      the frames that the host pushed after the capture and did not drop, in order. */
  lemma FetchedInputIsTheFrame(w0: StreamRuns.World, ps: seq<Push>, later: seq<Piece>, v: Watch.World, off: nat, n: nat,
                               payload: seq<byte>)
    requires Watched(w0, ps, later, v, off)
    ensures IsNthInput(StreamOf(v), off, n, payload) ==> IsNthFrame(later, n, payload)
  {
    var w, s :| WatchedIn(w0, w, ps, later, v, off) && s == StreamOf(v);
    if off > |s| {
      NoInputAhead(s, off, n);
    } else {
      StreamIsFetched(w0, w, ps, later, v, off);
      FetchedIsLater(w0, w, ps, later, s);
      InputsAreTheFrames(s, off, later, n);
    }
  }

  /** Once the session has ended with an empty queue, the log holds every one of those frames. */
  lemma FinishedLogHoldsEveryFrame(w0: StreamRuns.World, w: StreamRuns.World, ps: seq<Push>, later: seq<Piece>, n: nat)
    requires Later(w0, w, ps, later) && w.server.refused == {} && Playable(ps)
    requires !w.session.active && w.queue == []
    ensures 0 <= w0.bytesEnqueued <= |w.server.log|
    ensures NthInput(w.server.log, w0.bytesEnqueued, n) == NthFrame(later, n)
  {
    StreamRuns.SpectatorStartsWithTheNextRecord(w0, w);
    FetchedIsLater(w0, w, ps, later, w.server.log);
    EveryFrameIsFound(w.server.log, w0.bytesEnqueued, later, n);
  }

  /** The spectator that jumped to the state captured by the host in w0, at its offset and frame o, is served
      with n frames counted the (n - o.frame)-th of the frames that the host pushed after the capture and did
      not drop, whatever was pushed before, however the bytes were batched, retried, fetched, pulled and
      buffered. */
  lemma SpectatorPlaysWhatTheHostPushed(w0: StreamRuns.World, ps: seq<Push>, later: seq<Piece>, v: Watch.World,
                                        o: WatchPlayer.Origin, n: int, payload: seq<byte>)
    requires Watched(w0, ps, later, v, o.pos) && WatchPlayer.Serves(StreamOf(v), o, n, payload)
    ensures n >= o.frame && IsNthFrame(later, n - o.frame, payload)
  {
    if n >= o.frame {
      FetchedInputIsTheFrame(w0, ps, later, v, o.pos, n - o.frame, payload);
    }
    WatchPlayer.ServesNthInput(StreamOf(v), o, n, payload);
  }

  /** The log of a session that has ended, with everything queued sent: from off, the offset of a state
      captured in w0, it holds these pieces. */
  ghost predicate Finished(w0: StreamRuns.World, ps: seq<Push>, later: seq<Piece>, log: seq<byte>, off: nat) {
    exists w: StreamRuns.World :: FinishedIn(w0, w, ps, later, log, off)
  }

  ghost predicate FinishedIn(w0: StreamRuns.World, w: StreamRuns.World, ps: seq<Push>, later: seq<Piece>,
                             log: seq<byte>, off: nat) {
    && Later(w0, w, ps, later) && w.server.refused == {} && Playable(ps)
    && !w.session.active && w.queue == [] && log == w.server.log && off == w0.bytesEnqueued
  }

  lemma FrameIsInput(w0: StreamRuns.World, ps: seq<Push>, later: seq<Piece>, log: seq<byte>, off: nat, n: nat,
                     payload: seq<byte>)
    requires Finished(w0, ps, later, log, off) && IsNthFrame(later, n, payload)
    ensures IsNthInput(log, off, n, payload)
  {
    var w :| FinishedIn(w0, w, ps, later, log, off);
    FinishedLogHoldsEveryFrame(w0, w, ps, later, n);
  }

  lemma FinishedLogIsPlain(w0: StreamRuns.World, ps: seq<Push>, later: seq<Piece>, log: seq<byte>, off: nat)
    requires Finished(w0, ps, later, log, off)
    ensures Plain(log, off, |log|)
  {
    var w :| FinishedIn(w0, w, ps, later, log, off);
    StreamRuns.SpectatorStartsWithTheNextRecord(w0, w);
    FetchedIsLater(w0, w, ps, later, log);
    PiecesArePlain(log, off, later);
  }

  lemma NextFrameStands(w0: StreamRuns.World, ps: seq<Push>, later: seq<Piece>, log: seq<byte>, off: nat,
                        f0: int, p: nat, f: int, payload: seq<byte>) returns (q: nat)
    requires Finished(w0, ps, later, log, off) && Boundary(log, off, f0, p, f)
    requires f >= f0 && IsNthFrame(later, f - f0, payload)
    ensures NextInputAt(log, p, q, payload)
  {
    FrameIsInput(w0, ps, later, log, off, f - f0, payload);
    q := NextInputBehind(log, off, f0, p, f, payload);
  }

  lemma PlainAhead(w0: StreamRuns.World, ps: seq<Push>, later: seq<Piece>, log: seq<byte>, off: nat,
                   f0: int, p: nat, f: int, q: nat)
    requires Finished(w0, ps, later, log, off) && Boundary(log, off, f0, p, f) && p <= q <= |log|
    ensures Plain(log, p, q)
  {
    FinishedLogIsPlain(w0, ps, later, log, off);
    PlainBehind(log, off, f0, p, f, |log|);
    PlainBefore(log, p, |log|, q);
  }

  lemma NextFrameIsAhead(w0: StreamRuns.World, ps: seq<Push>, later: seq<Piece>, log: seq<byte>, off: nat,
                         f0: int, p: nat, f: int, payload: seq<byte>)
    requires Finished(w0, ps, later, log, off) && Boundary(log, off, f0, p, f)
    requires f >= f0 && IsNthFrame(later, f - f0, payload)
    ensures PlainInputAhead(log, p, payload)
  {
    var q := NextFrameStands(w0, ps, later, log, off, f0, p, f, payload);
    PlainAhead(w0, ps, later, log, off, f0, p, f, q);
  }

  lemma FinishedLogServes(w0: StreamRuns.World, ps: seq<Push>, later: seq<Piece>, log: seq<byte>, off: nat,
                          f0: int, p: nat, f: int, payload: seq<byte>, out: Outcome)
    requires Finished(w0, ps, later, log, off) && f >= f0 && IsNthFrame(later, f - f0, payload)
    ensures Boundary(log, off, f0, p, f) && p <= |log| && out == OutcomeAt(log, p) ==>
              ServedUpToTheMargin(log, p, payload, out)
  {
    if Boundary(log, off, f0, p, f) && p <= |log| && out == OutcomeAt(log, p) {
      NextFrameIsAhead(w0, ps, later, log, off, f0, p, f, payload);
      PlainInputIsServed(log, p, payload, out);
    }
  }

  /** The spectator was told that the stream has ended. */
  ghost predicate FetchedAll(v: Watch.World, log: seq<byte>, off: nat) {
    Spectator(v, log, off) && v.log == log && v.finished
  }

  lemma FinishedFetchIsTheLog(v: Watch.World, log: seq<byte>, off: nat)
    requires FetchedAll(v, log, off)
    ensures StreamOf(v) == log
  {
    var es :| Watch.AllAllowed(Watch.START, es) && v == Watch.Run(Watch.START, es);
    Watch.RunKeepsInv(Watch.START, es);
  }

  /** Once the session has ended with an empty queue, a spectator that has fetched all of it is served the next
      of those frames if and only if every chat and drop before it has 700 bytes of the log behind its type
      byte; else its playback is over. */
  lemma EveryFrameUpToTheMarginIsServed(w0: StreamRuns.World, ps: seq<Push>, later: seq<Piece>, log: seq<byte>,
                                        v: Watch.World, o: WatchPlayer.Origin, n: int, p: nat,
                                        payload: seq<byte>, out: Outcome)
    requires Finished(w0, ps, later, log, o.pos) && FetchedAll(v, log, o.pos)
             && WatchPlayer.Calls(StreamOf(v), o, n, p, out)
    requires n >= o.frame && IsNthFrame(later, n - o.frame, payload)
    ensures ServedUpToTheMargin(log, p, payload, out)
  {
    FinishedFetchIsTheLog(v, log, o.pos);
    WholeLogIsServed(w0, ps, later, log, o, n, p, payload, out);
  }

  lemma WholeLogIsServed(w0: StreamRuns.World, ps: seq<Push>, later: seq<Piece>, log: seq<byte>, o: WatchPlayer.Origin,
                         n: int, p: nat, payload: seq<byte>, out: Outcome)
    requires Finished(w0, ps, later, log, o.pos) && WatchPlayer.Calls(log, o, n, p, out)
    requires n >= o.frame && IsNthFrame(later, n - o.frame, payload)
    ensures ServedUpToTheMargin(log, p, payload, out)
  {
    FinishedLogServes(w0, ps, later, log, o.pos, o.frame, p, n, payload, out);
    WatchPlayer.CallsStandAtBoundaries(log, o, n, p, out);
  }
}
