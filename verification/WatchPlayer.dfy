/** Watch Live playback (player.cpp): a growing buffer with bounded history, the rewind snapshots into
    it, and the reader that serves one input record per call. */
module WatchPlayer {
  import opened Bytes
  import opened WatchRecords

  const RETAIN_MAX := 16 * 1024 * 1024
  const SNAPSHOT_COUNT := 100
  const SNAPSHOT_GAP := 600

  datatype Snapshot = Snapshot(frame: int, offset: nat)

  datatype Result = Frame(payload: seq<byte>) | Failed

  /** WatchCompleteRecordLength: the length of the record at p if it is all there, else 0. The length of
      an input is read as a signed number here, so one of 32768 bytes or more counts as incomplete. */
  function CompleteLength(buffer: seq<byte>, p: nat): nat {
    var r := RecordAt(buffer, p);
    if r.Unknown? || (r.Input? && r.length - 3 >= 0x8000) then 0 else Width(r)
  }

  /** Where the re-walk of a rewind stops: at the target frame, or before the first record that is not
      complete in the buffer. */
  function Walk(buffer: seq<byte>, p: nat, frame: int, target: int): (r: (nat, int))
    requires p <= |buffer|
    ensures p <= r.0 <= |buffer|
    decreases |buffer| - p
  {
    var n := CompleteLength(buffer, p);
    if frame >= target || n == 0 then (p, frame)
    else Walk(buffer, p + n, if buffer[p] == 0x12 then frame + 1 else frame, target)
  }

  ghost predicate WalksTo(buffer: seq<byte>, p: nat, frame: int, target: int, goal: (nat, int)) {
    p <= |buffer| && Walk(buffer, p, frame, target) == goal
  }

  lemma WalkGoesOn(buffer: seq<byte>, p: nat, frame: int, target: int, goal: (nat, int), n: nat, frame': int)
    requires WalksTo(buffer, p, frame, target, goal) && frame < target && n == CompleteLength(buffer, p) > 0
    requires p < |buffer| && frame' == if buffer[p] == 0x12 then frame + 1 else frame
    ensures WalksTo(buffer, p + n, frame', target, goal)
  {
  }

  lemma WalkOver(buffer: seq<byte>, p: nat, frame: int, target: int, goal: (nat, int))
    requires WalksTo(buffer, p, frame, target, goal) && (frame >= target || CompleteLength(buffer, p) == 0)
    ensures goal == (p, frame)
  {
  }

  /** The latest of the leading snapshots at or before the frame, else the first. */
  function BestFrom(snaps: seq<Snapshot>, frame: int, i: nat, best: nat): (b: nat)
    requires best < |snaps| && i <= |snaps|
    ensures b < |snaps|
    decreases |snaps| - i
  {
    if i == |snaps| || snaps[i].frame > frame then best else BestFrom(snaps, frame, i + 1, i)
  }

  /** The snapshots whose bytes survive the loss of the first `dropped` bytes of history. */
  function Survivors(snaps: seq<Snapshot>, dropped: nat): (r: seq<Snapshot>)
    ensures |r| <= |snaps|
  {
    if snaps == [] then []
    else
      var init, last := snaps[..|snaps| - 1], snaps[|snaps| - 1];
      Survivors(init, dropped) + if last.offset >= dropped then [last.(offset := last.offset - dropped)] else []
  }

  /** The player's state between calls. `feed` is what n02_watch_pull has yet to yield, one chunk a time;
      `base` counts the bytes of history given up so far, so buffer[0] is byte `base` of the stream. */
  datatype Watch = Watch(buffer: seq<byte>, ptr: nat, snapshots: seq<Snapshot>, frames: int, playing: bool,
                         feed: seq<seq<byte>>, base: nat)

  predicate InBuffer(w: Watch) {
    w.ptr <= |w.buffer|
  }

  /** PlayBackBuffer_Append of the next chunk: of the history before ptr at most 16 MB are kept. */
  function Appended(w: Watch): (w': Watch)
    requires InBuffer(w) && w.feed != []
    ensures InBuffer(w')
  {
    var dropped := w.ptr - Min(w.ptr, RETAIN_MAX);
    w.(buffer := w.buffer[dropped..] + w.feed[0], ptr := w.ptr - dropped, feed := w.feed[1..],
       base := w.base + dropped,
       snapshots := if dropped > 0 then Survivors(w.snapshots, dropped) else w.snapshots)
  }

  function Ahead(w: Watch): int {
    |w.buffer| - w.ptr
  }

  /** A new snapshot, unless the last one is fewer than 600 frames back; the oldest of 100 makes room. */
  function Snapped(w: Watch): Watch {
    var n := |w.snapshots|;
    if n > 0 && w.frames - w.snapshots[n - 1].frame < SNAPSHOT_GAP then w
    else w.(snapshots := (if n == SNAPSHOT_COUNT then w.snapshots[1..] else w.snapshots) + [Snapshot(w.frames, w.ptr)])
  }

  /** load_str: how far a C string of at most cap bytes at ptr reaches. */
  function StrLength(w: Watch, cap: nat): (n: nat)
    requires InBuffer(w)
    ensures n <= Ahead(w)
  {
    Min(Min(Min(cap, NulAt(w.buffer, w.ptr) - w.ptr + 1), Ahead(w) + 1), Ahead(w))
  }

  function Skipped(w: Watch, n: nat): Watch {
    w.(ptr := w.ptr + Min(n, |w.buffer| - w.ptr))
  }

  /** The strings, and number, of a drop or chat record whose type byte was read. */
  function PastText(w: Watch, b: byte): (w': Watch)
    requires InBuffer(w)
    ensures InBuffer(w') && w' == w.(ptr := w'.ptr)
  {
    var w1 := Skipped(w, StrLength(w, NICK_CAP));
    if b == 0x14 then Skipped(w1, 4) else Skipped(w1, StrLength(w1, TEXT_CAP))
  }

  function Ended(w: Watch): Watch {
    w.(playing := false)
  }

  /** WatchSeekToFrame: back to the best snapshot, then forward over whole records. */
  function Sought(w: Watch, frame: int): Watch {
    if w.snapshots == [] then w
    else
      var snap := w.snapshots[BestFrom(w.snapshots, frame, 0, 0)];
      if snap.offset > |w.buffer| then w
      else
        var (p, f) := Walk(w.buffer, snap.offset, snap.frame, frame);
        w.(ptr := p, frames := f)
  }

  /** player_watch_jump_to_live: all that was buffered is discarded, and reading starts over at the byte
      offset and frame number of the downloaded state. */
  function JumpedToLive(frameIndex: int, byteOffset: nat, feed: seq<seq<byte>>): Watch {
    Watch([], 0, [], frameIndex, true, feed, byteOffset)
  }

  /** player_watch_begin, once the header was read and the leading bytes were appended. */
  function Begun(header: seq<byte>, leading: seq<byte>, feed: seq<seq<byte>>): Watch {
    Watch(header + leading, 400, [Snapshot(0, 400)], 0, true, feed, 0)
  }

  ghost predicate Spaced(snaps: seq<Snapshot>) {
    forall i, j :: 0 <= i < j < |snaps| ==> snaps[j].frame - snaps[i].frame >= SNAPSHOT_GAP
  }

  // ----- what the state means -----

  /** Where a reading of the stream s began, and with which frame number. */
  datatype Origin = Origin(pos: nat, frame: int)

  ghost predicate Sees(w: Watch, s: seq<byte>) {
    InBuffer(w) && w.base <= |s| && s[w.base..] == w.buffer + Flatten(w.feed)
  }

  ghost predicate SnapshotOk(snap: Snapshot, length: int, s: seq<byte>, o: Origin, base: nat) {
    snap.offset <= length && Boundary(s, o.pos, o.frame, base + snap.offset, snap.frame)
  }

  ghost predicate SnapshotsOk(w: Watch, s: seq<byte>, o: Origin) {
    && |w.snapshots| <= SNAPSHOT_COUNT && Spaced(w.snapshots)
    && forall i :: 0 <= i < |w.snapshots| ==> SnapshotOk(w.snapshots[i], |w.buffer|, s, o, w.base)
  }

  ghost predicate AtBoundary(w: Watch, s: seq<byte>, o: Origin) {
    Boundary(s, o.pos, o.frame, w.base + w.ptr, w.frames)
  }

  /** Between calls the reader stands at a record boundary with exactly `frames` inputs before it, and so
      does every snapshot. */
  ghost predicate Valid(w: Watch, s: seq<byte>, o: Origin) {
    Sees(w, s) && SnapshotsOk(w, s, o) && (w.playing ==> AtBoundary(w, s, o))
  }

  lemma BufferIsStretch(stream: seq<byte>, base: nat, buffer: seq<byte>, feed: seq<seq<byte>>)
    requires base <= |stream| && stream[base..] == buffer + Flatten(feed)
    ensures StretchOf(buffer, stream, base)
  {
    forall i | 0 <= i < |buffer|
      ensures buffer[i] == stream[base + i]
    {
      assert stream[base..][i] == buffer[i];
    }
  }

  /** How a call that comes to o is seen from outside: its result, and how far reader and count moved. */
  ghost predicate CameTo(o: Outcome, r: Result, playing: bool, position: nat, counted: int) {
    match o
    case Served(payload, next) => r == Frame(payload) && playing && position == next && counted == 1
    case Bad(next) => r == Failed && playing && position == next && counted == 0
    case Over(_) => r == Failed && !playing && counted == 0
  }

  lemma TrimKeepsContent(stream: seq<byte>, base: nat, buffer: seq<byte>, dropped: nat, feed: seq<seq<byte>>)
    requires base <= |stream| && stream[base..] == buffer + Flatten(feed) && dropped <= |buffer| && feed != []
    ensures base + dropped <= |stream|
    ensures stream[base + dropped..] == buffer[dropped..] + feed[0] + Flatten(feed[1..])
  {
    assert stream[base + dropped..] == stream[base..][dropped..];
  }

  lemma SpacedSnoc(kept: seq<Snapshot>, last: Snapshot)
    requires Spaced(kept) && forall i :: 0 <= i < |kept| ==> last.frame - kept[i].frame >= SNAPSHOT_GAP
    ensures Spaced(kept + [last])
  {
  }

  lemma {:induction false} SurvivorsStaySpaced(snaps: seq<Snapshot>, dropped: nat)
    requires Spaced(snaps)
    ensures Spaced(Survivors(snaps, dropped)) && UpTo(Survivors(snaps, dropped), snaps)
  {
    if snaps == [] {
    } else {
      var n := |snaps| - 1;
      var init := snaps[..n];
      SurvivorsStaySpaced(init, dropped);
      var kept0 := Survivors(init, dropped);
      forall i | 0 <= i < |kept0|
        ensures snaps[n].frame - kept0[i].frame >= SNAPSHOT_GAP
      {
        assert kept0[i].frame <= init[n - 1].frame && init[n - 1] == snaps[n - 1];
      }
      SpacedSnoc(kept0, snaps[n].(offset := if snaps[n].offset >= dropped then snaps[n].offset - dropped else 0));
    }
  }

  ghost predicate UpTo(kept: seq<Snapshot>, snaps: seq<Snapshot>) {
    (kept != [] ==> snaps != []) && forall i :: 0 <= i < |kept| ==> kept[i].frame <= snaps[|snaps| - 1].frame
  }

  lemma {:induction false} SurvivorWas(snaps: seq<Snapshot>, dropped: nat, i: nat) returns (j: nat)
    requires i < |Survivors(snaps, dropped)|
    ensures j < |snaps|
            && snaps[j] == Survivors(snaps, dropped)[i].(offset := Survivors(snaps, dropped)[i].offset + dropped)
  {
    var n := |snaps| - 1;
    if i < |Survivors(snaps[..n], dropped)| {
      j := SurvivorWas(snaps[..n], dropped, i);
    } else {
      j := n;
    }
  }

  /** Trimming the history keeps every surviving snapshot on its record boundary, and their spacing. */
  lemma SurvivorsKeep(snaps: seq<Snapshot>, dropped: nat, length: nat, s: seq<byte>, o: Origin, base: nat)
    requires Spaced(snaps)
    requires forall i :: 0 <= i < |snaps| ==> SnapshotOk(snaps[i], length, s, o, base)
    ensures var kept := Survivors(snaps, dropped);
            && Spaced(kept)
            && forall i :: 0 <= i < |kept| ==> SnapshotOk(kept[i], length - dropped, s, o, base + dropped)
  {
    SurvivorsStaySpaced(snaps, dropped);
    var kept := Survivors(snaps, dropped);
    forall i | 0 <= i < |kept|
      ensures SnapshotOk(kept[i], length - dropped, s, o, base + dropped)
    {
      var j := SurvivorWas(snaps, dropped, i);
      assert SnapshotOk(snaps[j], length, s, o, base);
      assert base + dropped + kept[i].offset == base + snaps[j].offset;
    }
  }

  // ----- refilling changes nothing but the buffering -----

  ghost predicate SamePlace(w: Watch, w': Watch) {
    w'.base + w'.ptr == w.base + w.ptr && w'.frames == w.frames && w'.playing == w.playing
  }

  lemma AppendKeepsView(w: Watch, s: seq<byte>, o: Origin)
    requires Sees(w, s) && SnapshotsOk(w, s, o) && w.feed != []
    ensures var w' := Appended(w);
            Sees(w', s) && SnapshotsOk(w', s, o) && SamePlace(w, w')
  {
    var w' := Appended(w);
    var dropped := w'.base - w.base;
    TrimKeepsContent(s, w.base, w.buffer, dropped, w.feed);
    SurvivorsKeep(w.snapshots, dropped, |w.buffer|, s, o, w.base);
    if dropped == 0 {
      SnapshotsFitLonger(w, w', s, o);
    }
  }

  lemma SnapshotsFitLonger(w: Watch, w': Watch, s: seq<byte>, o: Origin)
    requires SnapshotsOk(w, s, o) && w'.snapshots == w.snapshots && w'.base == w.base && |w'.buffer| >= |w.buffer|
    ensures SnapshotsOk(w', s, o)
  {
    forall i | 0 <= i < |w'.snapshots|
      ensures SnapshotOk(w'.snapshots[i], |w'.buffer|, s, o, w'.base)
    {
      assert SnapshotOk(w.snapshots[i], |w.buffer|, s, o, w.base);
    }
  }

  /** The last snapshot of w is still there in w', unless more than 16 MB lay between it and the reader. */
  ghost predicate LastSurvives(w: Watch, w': Watch) {
    w.snapshots != [] ==>
      var last := w.snapshots[|w.snapshots| - 1];
      || last.offset + RETAIN_MAX < w.ptr
      || (w'.snapshots != []
          && w'.snapshots[|w'.snapshots| - 1] == last.(offset := w'.snapshots[|w'.snapshots| - 1].offset)
          && w'.base + w'.snapshots[|w'.snapshots| - 1].offset == w.base + last.offset)
  }

  lemma AppendKeepsLast(w: Watch)
    requires InBuffer(w) && w.feed != []
    ensures LastSurvives(w, Appended(w))
  {
  }

  lemma LastSurvivesOn(w: Watch, mid: Watch, w': Watch)
    requires LastSurvives(w, mid) && LastSurvives(mid, w') && SamePlace(w, mid)
    ensures LastSurvives(w, w')
  {
  }

  lemma {:induction false} SurvivorIsKept(snaps: seq<Snapshot>, dropped: nat, i: nat)
    requires i < |snaps| && snaps[i].offset >= dropped
    ensures snaps[i].(offset := snaps[i].offset - dropped) in Survivors(snaps, dropped)
    decreases |snaps|
  {
    if i < |snaps| - 1 {
      SurvivorIsKept(snaps[..|snaps| - 1], dropped, i);
    }
  }

  /** A refill keeps up to 16 MB of history: every byte of it stays buffered, every snapshot into it stays one, and
      no more than that is kept. */
  lemma HistoryIsKept(w: Watch, q: nat, i: nat)
    requires InBuffer(w) && w.feed != []
    ensures var w' := Appended(w);
            && w'.ptr <= RETAIN_MAX && w'.base + w'.ptr == w.base + w.ptr
            && w'.base + |w'.buffer| == w.base + |w.buffer| + |w.feed[0]|
            && (w.base <= q < w.base + |w.buffer| && q + RETAIN_MAX >= w.base + w.ptr ==>
                  w'.base <= q && w'.buffer[q - w'.base] == w.buffer[q - w.base])
            && (i < |w.snapshots| && w.snapshots[i].offset + RETAIN_MAX >= w.ptr ==>
                  w.snapshots[i].offset + w.base >= w'.base
                  && w.snapshots[i].(offset := w.snapshots[i].offset + w.base - w'.base) in w'.snapshots)
  {
    var w' := Appended(w);
    if i < |w.snapshots| && w.snapshots[i].offset + RETAIN_MAX >= w.ptr && w'.base > w.base {
      SurvivorIsKept(w.snapshots, w'.base - w.base, i);
    }
  }

  /** A snapshot is near: there is one, and the last is fewer than 600 frames back. */
  ghost predicate NearSnapshot(snaps: seq<Snapshot>, frames: int) {
    snaps != [] && frames - snaps[|snaps| - 1].frame < SNAPSHOT_GAP
  }

  /** What recording leaves: the earlier snapshots, of which only the oldest of 100 has to go, and behind them, when
      one is due, one of this place. */
  ghost predicate SnapshotTaken(snaps: seq<Snapshot>, snaps': seq<Snapshot>, frames: int, ptr: nat) {
    if NearSnapshot(snaps, frames) then snaps' == snaps
    else
      && snaps' != [] && snaps'[|snaps'| - 1] == Snapshot(frames, ptr)
      && snaps'[..|snaps'| - 1] == if |snaps| == SNAPSHOT_COUNT then snaps[1..] else snaps
  }

  /** The n-th input is near a snapshot to rewind to, unless fewer than 600 inputs before it take up more than the
      16 MB of history that are kept. */
  ghost predicate NearOrFar(w: Watch, s: seq<byte>, o: Origin, n: int, p: int) {
    NearSnapshot(w.snapshots, n)
    || exists q: nat, f: int :: Boundary(s, o.pos, o.frame, q, f) && n - f < SNAPSHOT_GAP && q + RETAIN_MAX < p
  }

  lemma NearSurvives(w: Watch, w': Watch, s: seq<byte>, o: Origin)
    requires SnapshotsOk(w, s, o) && NearSnapshot(w.snapshots, w.frames) && LastSurvives(w, w')
    ensures NearOrFar(w', s, o, w.frames, w.base + w.ptr)
  {
    var last := w.snapshots[|w.snapshots| - 1];
    assert SnapshotOk(last, |w.buffer|, s, o, w.base);
  }

  lemma SnapIsTaken(w: Watch)
    ensures SnapshotTaken(w.snapshots, Snapped(w).snapshots, w.frames, w.ptr)
    ensures NearSnapshot(Snapped(w).snapshots, w.frames)
    ensures Snapped(w) == w.(snapshots := Snapped(w).snapshots)
  {
  }

  lemma SnapKeepsView(w: Watch, s: seq<byte>, o: Origin)
    requires Sees(w, s) && SnapshotsOk(w, s, o) && AtBoundary(w, s, o)
    ensures var w' := Snapped(w);
            Sees(w', s) && SnapshotsOk(w', s, o) && AtBoundary(w', s, o) && SamePlace(w, w') && w'.buffer == w.buffer
  {
    var w' := Snapped(w);
    if w' != w {
      var shift := |w.snapshots| + 1 - |w'.snapshots|;
      forall i | 0 <= i < |w'.snapshots|
        ensures SnapshotOk(w'.snapshots[i], |w'.buffer|, s, o, w'.base)
        ensures i < |w'.snapshots| - 1 ==> w'.snapshots[i] == w.snapshots[i + shift]
      {
        if i < |w'.snapshots| - 1 {
          assert SnapshotOk(w.snapshots[i + shift], |w.buffer|, s, o, w.base);
        }
      }
    }
  }

  // ----- one call -----

  lemma StringReads(w: Watch, cap: nat)
    requires InBuffer(w) && Ahead(w) >= cap
    ensures CStr(w.buffer, w.ptr, cap) == Some(StrLength(w, cap))
  {
    CStrIsStrlen(w.buffer, w.ptr, cap);
  }

  /** Past the strings lies the end of the record. */
  lemma PastTextIsPastRecord(w: Watch, s: seq<byte>, b: byte, from: nat, to: nat)
    requires Sees(w, s) && Ahead(w) >= SAFETY_MARGIN && (b == 0x14 || b == 0x08)
    requires from + 1 == w.base + w.ptr && s[from] == b && to == w.base + PastText(w, b).ptr
    ensures TextBetween(s, from, to)
  {
    BufferIsStretch(s, w.base, w.buffer, w.feed);
    var n, m := PastTextLength(w, b);
    TextRecordInStretch(w.buffer, s, w.base, w.ptr, n, m, from, to);
  }

  lemma PastTextLength(w: Watch, b: byte) returns (n: nat, m: nat)
    requires InBuffer(w) && Ahead(w) >= SAFETY_MARGIN
    ensures CStr(w.buffer, w.ptr, NICK_CAP) == Some(n)
    ensures if b == 0x14 then m == 4 else CStr(w.buffer, w.ptr + n, TEXT_CAP) == Some(m)
    ensures PastText(w, b).ptr == w.ptr + n + m
  {
    n := StrLength(w, NICK_CAP);
    m := if b == 0x14 then 4 else StrLength(Skipped(w, n), TEXT_CAP);
    StringReads(w, NICK_CAP);
    StringReads(Skipped(w, n), TEXT_CAP);
  }

  /** Moving the reader within the buffer, counting a frame or ending the playback keeps the rest. */
  lemma MoveKeepsView(w: Watch, w': Watch, s: seq<byte>, o: Origin)
    requires Sees(w, s) && SnapshotsOk(w, s, o) && w'.ptr <= |w.buffer|
    requires w' == w.(ptr := w'.ptr, frames := w'.frames, playing := w'.playing)
    ensures Sees(w', s) && SnapshotsOk(w', s, o)
  {
    SnapshotsFitLonger(w, w', s, o);
  }

  lemma InputLength(w: Watch, s: seq<byte>)
    requires Sees(w, s) && Ahead(w) >= 3 && w.buffer[w.ptr] == 0x12
    ensures var p := w.base + w.ptr;
            var l := FromLe16(w.buffer[w.ptr + 1..w.ptr + 3]);
            && s[p] == 0x12 && |s| - p >= 3
            && RecordAt(s, p) == (if |s| - (p + 3) >= l then Input(3 + l) else Cut)
  {
    BufferIsStretch(s, w.base, w.buffer, w.feed);
    SliceInStretch(w.buffer, s, w.base, w.ptr + 1, w.ptr + 3);
  }

  lemma InputPayload(w: Watch, s: seq<byte>, p: nat, l: nat)
    requires Sees(w, s) && Ahead(w) >= l && w.base + w.ptr == p + 3 && RecordAt(s, p) == Input(3 + l)
    ensures Payload(s, p) == w.buffer[w.ptr..w.ptr + l]
  {
    BufferIsStretch(s, w.base, w.buffer, w.feed);
    SliceInStretch(w.buffer, s, w.base, w.ptr, w.ptr + l);
  }

  /** What a refill guarantees: only the buffering changes, and the bytes asked for are there unless the
      stream itself has too few left. */
  ghost predicate RefillOf(w: Watch, w': Watch, s: seq<byte>, o: Origin, need: nat) {
    && Sees(w', s) && SnapshotsOk(w', s, o) && SamePlace(w, w')
    && (Ahead(w') >= need <==> |s| - (w.base + w.ptr) >= need)
  }

  /** With the whole of s buffered, a call in w would come to out. */
  ghost predicate Due(w: Watch, s: seq<byte>, out: Outcome) {
    w.base + w.ptr <= |s| && out == OutcomeAt(s, w.base + w.ptr)
  }

  /** A call that started in w and came to out ended in w' with r, every invariant intact. */
  ghost predicate Refines(out: Outcome, w: Watch, w': Watch, r: Result, s: seq<byte>, o: Origin) {
    Valid(w', s, o) && CameTo(out, r, w'.playing, w'.base + w'.ptr, w'.frames - w.frames)
  }

  /** The call goes on in w' as it would have in w: same frame count, no earlier position, same outcome. */
  ghost predicate Onward(w: Watch, w': Watch, s: seq<byte>, o: Origin, out: Outcome) {
    && Valid(w', s, o) && w'.playing && w'.frames == w.frames
    && w.base + w.ptr <= w'.base + w'.ptr && Due(w', s, out)
  }

  /** The stream ends within three bytes. */
  lemma EndCase(w: Watch, w1: Watch, w2: Watch, s: seq<byte>, o: Origin, out: Outcome)
    requires Valid(w, s, o) && w.playing && RefillOf(w, w1, s, o, 3) && Ahead(w1) < 3
    requires w2 == Ended(w1) && Due(w, s, out)
    ensures Refines(out, w, w2, Failed, s, o)
  {
    OutcomeOtherwise(s, w.base + w.ptr);
    MoveKeepsView(w1, w2, s, o);
  }

  /** Three bytes are there, and a snapshot was taken if one was due. */
  lemma OpenCase(w: Watch, w1: Watch, w2: Watch, s: seq<byte>, o: Origin, out: Outcome)
    requires Valid(w, s, o) && w.playing && Due(w, s, out) && RefillOf(w, w1, s, o, 3) && Ahead(w1) >= 3
    requires w2 == Snapped(w1)
    ensures Onward(w, w2, s, o, out) && Ahead(w2) >= 3
  {
    SnapKeepsView(w1, s, o);
  }

  /** An input record at w, of whose payload w1 is the refill: served if all of it is there. */
  lemma InputCase(w: Watch, w0: Watch, w1: Watch, w2: Watch, s: seq<byte>, o: Origin, l: nat, out: Outcome)
    requires Valid(w, s, o) && w.playing && Ahead(w) >= 3 && w.buffer[w.ptr] == 0x12
    requires l == FromLe16(w.buffer[w.ptr + 1..w.ptr + 3]) && w0 == w.(ptr := w.ptr + 3) && RefillOf(w0, w1, s, o, l)
    requires Ahead(w1) >= l && w2 == w1.(ptr := w1.ptr + l, frames := w1.frames + 1) && Due(w, s, out)
    ensures Refines(out, w, w2, Frame(w1.buffer[w1.ptr..w1.ptr + l]), s, o)
  {
    InputLength(w, s);
    var p := w.base + w.ptr;
    OutcomeOtherwise(s, p);
    InputPayload(w1, s, p, l);
    MoveKeepsView(w1, w2, s, o);
    BoundaryExtends(s, o.pos, o.frame, p, w.frames);
  }

  lemma CutInputCase(w: Watch, w0: Watch, w1: Watch, w2: Watch, s: seq<byte>, o: Origin, l: nat, out: Outcome)
    requires Valid(w, s, o) && w.playing && Ahead(w) >= 3 && w.buffer[w.ptr] == 0x12
    requires l == FromLe16(w.buffer[w.ptr + 1..w.ptr + 3]) && w0 == w.(ptr := w.ptr + 3) && RefillOf(w0, w1, s, o, l)
    requires Ahead(w1) < l && w2 == Ended(w1) && Due(w, s, out)
    ensures Refines(out, w, w2, Failed, s, o)
  {
    InputLength(w, s);
    OutcomeOtherwise(s, w.base + w.ptr);
    MoveKeepsView(w1, w2, s, o);
  }

  lemma UnknownCase(w: Watch, w2: Watch, s: seq<byte>, o: Origin, out: Outcome)
    requires Valid(w, s, o) && w.playing && Ahead(w) >= 3 && w.buffer[w.ptr] !in [0x12, 0x14, 0x08]
    requires w2 == w.(ptr := w.ptr + 1) && Due(w, s, out)
    ensures Refines(out, w, w2, Failed, s, o)
  {
    BufferIsStretch(s, w.base, w.buffer, w.feed);
    OutcomeOtherwise(s, w.base + w.ptr);
    MoveKeepsView(w, w2, s, o);
    BoundaryExtends(s, o.pos, o.frame, w.base + w.ptr, w.frames);
  }

  /** A drop or chat record at w cut short: fewer than 700 bytes follow its type byte. */
  lemma CutTextCase(w: Watch, w0: Watch, w1: Watch, w2: Watch, s: seq<byte>, o: Origin, out: Outcome)
    requires Valid(w, s, o) && w.playing && Ahead(w) >= 3
    requires w.buffer[w.ptr] == 0x14 || w.buffer[w.ptr] == 0x08
    requires w0 == w.(ptr := w.ptr + 1) && RefillOf(w0, w1, s, o, SAFETY_MARGIN) && Ahead(w1) < SAFETY_MARGIN
    requires w2 == Ended(w1) && Due(w, s, out)
    ensures Refines(out, w, w2, Failed, s, o)
  {
    BufferIsStretch(s, w.base, w.buffer, w.feed);
    OutcomeSkipsText(s, w.base + w.ptr);
    MoveKeepsView(w1, w2, s, o);
  }

  lemma SameFrames(out: Outcome, w: Watch, mid: Watch, w': Watch, r: Result, s: seq<byte>, o: Origin)
    requires Refines(out, mid, w', r, s, o) && mid.frames == w.frames
    ensures Refines(out, w, w', r, s, o)
  {
  }

  /** A whole drop or chat record at w: w2 is w1, the refill behind its type byte, past its end. */
  lemma TextCase(w: Watch, w0: Watch, w1: Watch, w2: Watch, s: seq<byte>, o: Origin, out: Outcome)
    requires Valid(w, s, o) && w.playing && Ahead(w) >= 3
    requires w.buffer[w.ptr] == 0x14 || w.buffer[w.ptr] == 0x08
    requires w0 == w.(ptr := w.ptr + 1) && RefillOf(w0, w1, s, o, SAFETY_MARGIN) && Ahead(w1) >= SAFETY_MARGIN
    requires w2 == w1.(ptr := w2.ptr) && w2.ptr <= |w1.buffer| && TextBetween(s, w.base + w.ptr, w2.base + w2.ptr)
    requires Due(w, s, out)
    ensures Onward(w, w2, s, o, out) && w.base + w.ptr < w2.base + w2.ptr
  {
    var p, q := w.base + w.ptr, w2.base + w2.ptr;
    MarginInStream(w0, w1, s, o);
    TextIsDue(w, s, p, q, out);
    TextKeepsView(w, w1, w2, s, o, p);
  }

  lemma MarginInStream(w0: Watch, w1: Watch, s: seq<byte>, o: Origin)
    requires RefillOf(w0, w1, s, o, SAFETY_MARGIN) && Ahead(w1) >= SAFETY_MARGIN
    ensures |s| - (w0.base + w0.ptr) >= SAFETY_MARGIN
  {
  }

  lemma TextIsDue(w: Watch, s: seq<byte>, p: nat, q: nat, out: Outcome)
    requires Sees(w, s) && w.ptr < |w.buffer| && (w.buffer[w.ptr] == 0x14 || w.buffer[w.ptr] == 0x08)
    requires p == w.base + w.ptr && |s| - (p + 1) >= SAFETY_MARGIN && TextBetween(s, p, q) && Due(w, s, out)
    ensures p < q <= |s| && out == OutcomeAt(s, q)
  {
    ByteInStream(w, s);
    TextOutcome(s, p, q, out);
  }

  lemma TextKeepsView(w: Watch, w1: Watch, w2: Watch, s: seq<byte>, o: Origin, p: nat)
    requires Boundary(s, o.pos, o.frame, p, w.frames) && Sees(w1, s) && SnapshotsOk(w1, s, o) && w1.frames == w.frames
    requires w2 == w1.(ptr := w2.ptr) && w2.ptr <= |w1.buffer| && TextBetween(s, p, w2.base + w2.ptr)
    ensures Valid(w2, s, o)
  {
    MoveKeepsView(w1, w2, s, o);
    BoundaryExtends(s, o.pos, o.frame, p, w.frames);
  }

  lemma TextOutcome(s: seq<byte>, p: nat, q: nat, out: Outcome)
    requires p < |s| && (s[p] == 0x14 || s[p] == 0x08) && |s| - (p + 1) >= SAFETY_MARGIN
    requires TextBetween(s, p, q) && out == OutcomeAt(s, p)
    ensures out == OutcomeAt(s, q) && q > p
  {
    OutcomeSkipsText(s, p);
  }

  lemma ByteInStream(w: Watch, s: seq<byte>)
    requires Sees(w, s) && w.ptr < |w.buffer|
    ensures w.base + w.ptr < |s| && s[w.base + w.ptr] == w.buffer[w.ptr]
  {
    BufferIsStretch(s, w.base, w.buffer, w.feed);
  }

  // ----- the player -----

  class Player {
    var buffer: seq<byte>
    var ptr: nat
    var snapshots: seq<Snapshot>
    var frames: int
    var playing: bool
    var feed: seq<seq<byte>>
    ghost var base: nat

    ghost function State(): Watch
      reads this
    {
      Watch(buffer, ptr, snapshots, frames, playing, feed, base)
    }

    /** player_watch_begin, once the header was read and the leading bytes were appended. */
    constructor (header: seq<byte>, leading: seq<byte>, feed: seq<seq<byte>>)
      requires |header| == 400
      ensures State() == Begun(header, leading, feed)
      ensures Valid(State(), header + leading + Flatten(feed), Origin(400, 0)) && playing && frames == 0
    {
      buffer, ptr, frames, playing := header + leading, 400, 0, true;
      snapshots := [Snapshot(0, 400)];
      this.feed, base := feed, 0;
      BoundaryItself(header + leading + Flatten(feed), 400, 0);
    }

    method SnapshotRecord()
      modifies this`snapshots
      ensures State() == Snapped(old(State()))
      ensures SnapshotTaken(old(snapshots), snapshots, frames, ptr) && NearSnapshot(snapshots, frames)
    {
      SnapIsTaken(State());
      if |snapshots| > 0 && frames - snapshots[|snapshots| - 1].frame < SNAPSHOT_GAP {
        return;
      }
      if |snapshots| == SNAPSHOT_COUNT {
        snapshots := snapshots[1..];
      }
      snapshots := snapshots + [Snapshot(frames, ptr)];
    }

    /** Drops the snapshots whose bytes are gone and moves the others along. */
    method DropSnapshots(dropped: nat)
      modifies this`snapshots
      ensures snapshots == Survivors(old(snapshots), dropped)
    {
      ghost var snaps := snapshots;
      var kept: seq<Snapshot> := [];
      for i := 0 to |snapshots|
        invariant kept == Survivors(snaps[..i], dropped) && snapshots == snaps
      {
        assert snaps[..i + 1][..i] == snaps[..i];
        if snapshots[i].offset >= dropped {
          kept := kept + [snapshots[i].(offset := snapshots[i].offset - dropped)];
        }
      }
      assert snaps[..|snaps|] == snaps;
      snapshots := kept;
    }

    /** PlayBackBuffer_Append, with the next chunk that n02_watch_pull yields. */
    method Append()
      requires InBuffer(State()) && feed != []
      modifies this`buffer, this`ptr, this`snapshots, this`feed, this`base
      ensures State() == Appended(old(State()))
    {
      var retain := Min(ptr, RETAIN_MAX);
      var dropped := ptr - retain;
      buffer := buffer[dropped..] + feed[0];
      ptr := retain;
      feed := feed[1..];
      base := base + dropped;
      if dropped > 0 {
        DropSnapshots(dropped);
      }
    }

    /** WatchEnsureBuffered: refills until `need` bytes are buffered; false once the stream ends first. */
    method EnsureBuffered(need: nat, ghost s: seq<byte>, ghost o: Origin) returns (ok: bool)
      requires Sees(State(), s) && SnapshotsOk(State(), s, o)
      modifies this`buffer, this`ptr, this`snapshots, this`feed, this`base
      ensures RefillOf(old(State()), State(), s, o, need) && LastSurvives(old(State()), State())
      ensures ok <==> Ahead(State()) >= need
    {
      while |buffer| - ptr < need
        invariant Sees(State(), s) && SnapshotsOk(State(), s, o) && SamePlace(old(State()), State())
        invariant LastSurvives(old(State()), State())
        decreases |feed|
      {
        if feed == [] {
          return false;
        }
        AppendKeepsView(State(), s, o);
        AppendKeepsLast(State());
        LastSurvivesOn(old(State()), State(), Appended(State()));
        Append();
      }
      return true;
    }

    /** load_str: skips a C string of at most cap bytes and returns what was read of it. */
    method LoadStr(cap: nat) returns (text: seq<byte>)
      requires InBuffer(State())
      modifies this`ptr
      ensures State() == Skipped(old(State()), StrLength(old(State()), cap)) && ptr <= |buffer|
      ensures text == buffer[old(ptr)..ptr]
    {
      var n := Min(cap, NulAt(buffer, ptr) - ptr + 1);
      n := Min(n, |buffer| - ptr + 1);
      n := Min(n, |buffer| - ptr);
      text := buffer[ptr..ptr + n];
      ptr := ptr + n;
    }

    /** The strings, and the player number, behind the type byte of a drop or chat record. */
    method SkipText(b: byte)
      requires InBuffer(State()) && (b == 0x14 || b == 0x08)
      modifies this`ptr
      ensures State() == PastText(old(State()), b)
    {
      var nick := LoadStr(NICK_CAP);
      if b == 0x14 {
        ptr := ptr + Min(4, |buffer| - ptr);
      } else {
        var msg := LoadStr(TEXT_CAP);
      }
    }

    /** With 700 bytes ahead, that is the whole record. */
    method SkipWholeText(b: byte, ghost s: seq<byte>)
      requires Sees(State(), s) && Ahead(State()) >= SAFETY_MARGIN && (b == 0x14 || b == 0x08)
      requires base + ptr > 0 && s[base + ptr - 1] == b
      modifies this`ptr
      ensures ptr <= |buffer| && TextBetween(s, old(base + ptr) - 1, base + ptr)
    {
      ghost var w := State();
      SkipText(b);
      PastTextIsPastRecord(w, s, b, w.base + w.ptr - 1, base + ptr);
    }

    /** The input record at ptr; its payload may have to be fetched first. */
    method TakeInput(ghost s: seq<byte>, ghost o: Origin, ghost out: Outcome) returns (r: Result)
      requires Valid(State(), s, o) && playing && ptr + 3 <= |buffer| && buffer[ptr] == 0x12
      requires Due(State(), s, out) && NearSnapshot(snapshots, frames)
      modifies this
      ensures Refines(out, old(State()), State(), r, s, o)
      ensures r.Frame? ==> NearOrFar(State(), s, o, old(frames), base + ptr)
    {
      ghost var w := State();
      var l := FromLe16(buffer[ptr + 1..ptr + 3]);
      MoveKeepsView(w, w.(ptr := w.ptr + 3), s, o);
      ptr := ptr + 3;
      ghost var w0 := State();
      var ok := EnsureBuffered(l, s, o);
      ghost var w1 := State();
      if !ok {
        playing := false;
        CutInputCase(w, w0, w1, State(), s, o, l, out);
        return Failed;
      }
      r := Frame(buffer[ptr..ptr + l]);
      ptr := ptr + l;
      frames := frames + 1;
      InputCase(w, w0, w1, State(), s, o, l, out);
      NearSurvives(w0, w1, s, o);
    }

    /** The drop or chat record at ptr is skipped, if 700 bytes follow its type byte. */
    method TakeText(ghost s: seq<byte>, ghost o: Origin, ghost out: Outcome) returns (ok: bool)
      requires Valid(State(), s, o) && playing && ptr + 3 <= |buffer| && (buffer[ptr] == 0x14 || buffer[ptr] == 0x08)
      requires Due(State(), s, out)
      modifies this
      ensures ok ==> Onward(old(State()), State(), s, o, out) && old(base + ptr) < base + ptr
      ensures !ok ==> Refines(out, old(State()), State(), Failed, s, o)
    {
      ghost var w := State();
      var b := buffer[ptr];
      ByteInStream(w, s);
      MoveKeepsView(w, w.(ptr := w.ptr + 1), s, o);
      ptr := ptr + 1;
      ghost var w0 := State();
      ok := EnsureBuffered(SAFETY_MARGIN, s, o);
      ghost var w1 := State();
      if !ok {
        playing := false;
        CutTextCase(w, w0, w1, State(), s, o, out);
        return;
      }
      SkipWholeText(b, s);
      TextCase(w, w0, w1, State(), s, o, out);
    }

    /** player_MPV while watching, on a stream s whose reading began at o: for any chunking of the fetched
        bytes, any refill in the middle of a record and any trimming of the history, a call comes to
        exactly what it would come to with the whole stream buffered, and leaves the reader and every
        snapshot on a record boundary with an exact frame count. */
    method ModifyPlayValues(ghost s: seq<byte>, ghost o: Origin, ghost out: Outcome) returns (r: Result)
      requires Valid(State(), s, o) && Due(State(), s, out)
      modifies this
      decreases if playing then |s| - (base + ptr) else 0
      ensures if old(playing) then Refines(out, old(State()), State(), r, s, o)
              else r == Failed && State() == old(State())
      ensures r.Frame? ==> NearOrFar(State(), s, o, old(frames), base + ptr)
    {
      if !playing {
        return Failed;
      }
      ghost var w := State();
      var ok := OpenCall(s, o, out);
      if !ok {
        return Failed;
      }
      ghost var mid := State();
      var b := buffer[ptr];
      if b == 0x12 {
        r := TakeInput(s, o, out);
        SameFrames(out, w, mid, State(), r, s, o);
      } else if b == 0x14 || b == 0x08 {
        ok := TakeText(s, o, out);
        if !ok {
          SameFrames(out, w, mid, State(), Failed, s, o);
          return Failed;
        }
        mid := State();
        r := ModifyPlayValues(s, o, out);
        SameFrames(out, w, mid, State(), r, s, o);
      } else {
        ptr := ptr + 1;
        r := Failed;
        UnknownCase(mid, State(), s, o, out);
        SameFrames(out, w, mid, State(), r, s, o);
      }
    }

    /** Three bytes are made available and a snapshot is taken, or the playback ends. */
    method OpenCall(ghost s: seq<byte>, ghost o: Origin, ghost out: Outcome) returns (ok: bool)
      requires Valid(State(), s, o) && playing && Due(State(), s, out)
      modifies this
      ensures ok ==> Onward(old(State()), State(), s, o, out) && ptr + 3 <= |buffer|
      ensures ok ==> NearSnapshot(snapshots, frames)
      ensures !ok ==> Refines(out, old(State()), State(), Failed, s, o)
    {
      ghost var w0 := State();
      ok := EnsureBuffered(3, s, o);
      if !ok {
        ghost var w1 := State();
        playing := false;
        EndCase(w0, w1, State(), s, o, out);
        return;
      }
      ghost var w1 := State();
      SnapshotRecord();
      OpenCase(w0, w1, State(), s, o, out);
    }

    /** Forward over whole records until the target frame, or the end of what is buffered. */
    method WalkForward(frame: int)
      requires ptr <= |buffer|
      modifies this`ptr, this`frames
      ensures (ptr, frames) == Walk(buffer, old(ptr), old(frames), frame)
    {
      ghost var goal := Walk(buffer, ptr, frames, frame);
      while frames < frame
        invariant WalksTo(buffer, ptr, frames, frame, goal)
        decreases |buffer| - ptr
      {
        var n := CompleteLength(buffer, ptr);
        if n <= 0 {
          WalkOver(buffer, ptr, frames, frame, goal);
          return;
        }
        var passed := if buffer[ptr] == 0x12 then frames + 1 else frames;
        WalkGoesOn(buffer, ptr, frames, frame, goal, n, passed);
        ptr, frames := ptr + n, passed;
      }
      WalkOver(buffer, ptr, frames, frame, goal);
    }

    /** The snapshot to start a rewind from. */
    method BestSnapshot(frame: int) returns (best: nat)
      requires |snapshots| > 0
      ensures best == BestFrom(snapshots, frame, 0, 0)
    {
      best := 0;
      var i := 0;
      while i < |snapshots|
        invariant 0 <= i <= |snapshots| && best < |snapshots|
        invariant BestFrom(snapshots, frame, 0, 0) == BestFrom(snapshots, frame, i, best)
      {
        if snapshots[i].frame <= frame {
          best := i;
        } else {
          break;
        }
        i := i + 1;
      }
    }

    /** WatchSeekToFrame: back to the best snapshot, then forward over whole records. */
    method SeekToFrame(frame: int, ghost s: seq<byte>, ghost o: Origin)
      requires Valid(State(), s, o) && playing
      modifies this`ptr, this`frames
      ensures Valid(State(), s, o) && State() == Sought(old(State()), frame)
    {
      SoughtIsValid(State(), s, o, frame);
      if |snapshots| == 0 {
        return;
      }
      var best := BestSnapshot(frame);
      assert SnapshotOk(snapshots[best], |buffer|, s, o, base);
      ptr := snapshots[best].offset;
      frames := snapshots[best].frame;
      WalkForward(frame);
    }

    /** player_watch_jump_to_live: everything buffered is discarded, and reading starts over at the byte
        offset and frame number of the downloaded state. */
    method JumpToLive(frameIndex: int, byteOffset: nat, feed: seq<seq<byte>>)
      requires playing
      modifies this
      ensures State() == JumpedToLive(frameIndex, byteOffset, feed) && playing && frames == frameIndex
      ensures forall s :: byteOffset <= |s| && s[byteOffset..] == Flatten(feed) ==>
                            Valid(State(), s, Origin(byteOffset, frameIndex))
    {
      buffer, ptr, snapshots, frames, this.feed := [], 0, [], frameIndex, feed;
      base := byteOffset;
      forall s | byteOffset <= |s| && s[byteOffset..] == Flatten(feed)
        ensures Valid(State(), s, Origin(byteOffset, frameIndex))
      {
        BoundaryItself(s, byteOffset, frameIndex);
        assert [] + Flatten(feed) == Flatten(feed);
      }
    }
  }

  ghost predicate ServingCall(w: Watch, w': Watch, out: Outcome, s: seq<byte>, o: Origin, n: int, payload: seq<byte>) {
    && Valid(w, s, o) && w.playing && w.frames == n
    && Due(w, s, out) && Refines(out, w, w', Frame(payload), s, o)
  }

  /** A payload served while the frame count goes from n to n + 1 is the n-th input record of the stream,
      counted from where this reading of it began. */
  lemma ServedPayloadIsNthInput(w: Watch, w': Watch, out: Outcome, s: seq<byte>, o: Origin, n: int, payload: seq<byte>)
    requires ServingCall(w, w', out, s, o, n, payload)
    ensures w'.frames == n + 1 && n >= o.frame && IsNthInput(s, o.pos, n - o.frame, payload)
  {
    assert out.Served? && out.payload == payload;
    OutcomeIsNth(s, o.pos, o.frame, w.base + w.ptr, n, out, payload);
  }

  /** Some call of the player on the stream s, begun with n frames counted, serves the payload. */
  ghost predicate Serves(s: seq<byte>, o: Origin, n: int, payload: seq<byte>) {
    exists w: Watch, w': Watch, out: Outcome :: ServingCall(w, w', out, s, o, n, payload)
  }

  lemma ServesNthInput(s: seq<byte>, o: Origin, n: int, payload: seq<byte>)
    requires Serves(s, o, n, payload)
    ensures n >= o.frame && IsNthInput(s, o.pos, n - o.frame, payload)
  {
    var w, w', out :| ServingCall(w, w', out, s, o, n, payload);
    ServedPayloadIsNthInput(w, w', out, s, o, n, payload);
  }

  /** Some player of the stream s, with n frames counted, stands at position p and is about to come to out. */
  ghost predicate Calls(s: seq<byte>, o: Origin, n: int, p: nat, out: Outcome) {
    exists w: Watch :: DueCall(w, s, o, n, p, out)
  }

  ghost predicate DueCall(w: Watch, s: seq<byte>, o: Origin, n: int, p: nat, out: Outcome) {
    Valid(w, s, o) && w.playing && w.frames == n && p == w.base + w.ptr && Due(w, s, out)
  }

  lemma DueCallStandsAtBoundary(w: Watch, s: seq<byte>, o: Origin, n: int, p: nat, out: Outcome)
    requires DueCall(w, s, o, n, p, out)
    ensures Boundary(s, o.pos, o.frame, p, n) && p <= |s| && out == OutcomeAt(s, p)
  {
    assert AtBoundary(w, s, o);
  }

  lemma CallsStandAtBoundaries(s: seq<byte>, o: Origin, n: int, p: nat, out: Outcome)
    requires Calls(s, o, n, p, out)
    ensures Boundary(s, o.pos, o.frame, p, n) && p <= |s| && out == OutcomeAt(s, p)
  {
    var w: Watch :| DueCall(w, s, o, n, p, out);
    DueCallStandsAtBoundary(w, s, o, n, p, out);
  }

  // ----- rewinding -----

  /** What is complete in the buffer is the record of the stream. */
  lemma CompleteIsRecord(buffer: seq<byte>, s: seq<byte>, base: nat, p: nat)
    requires StretchOf(buffer, s, base) && p <= |buffer|
    ensures var n, r := CompleteLength(buffer, p), RecordAt(s, base + p);
            && (n > 0 ==> !r.Cut? && Width(r) == n && Inputs(r) == if buffer[p] == 0x12 then 1 else 0)
            && (!r.Cut? && !r.Unknown? && p + Width(r) <= |buffer| && (r.Input? ==> r.length - 3 < 0x8000) ==>
                  n == Width(r))
  {
    RecordInStretch(buffer, s, base, p);
  }

  /** A re-walk that stops short of its target stops before a record that is not complete. */
  lemma {:induction false} WalkStops(buffer: seq<byte>, p: nat, frame: int, target: int)
    requires p <= |buffer|
    ensures var (q, f) := Walk(buffer, p, frame, target);
            && (f < target ==> CompleteLength(buffer, q) == 0)
            && (frame <= target ==> f <= target)
            && (frame >= target ==> f == frame)
    decreases |buffer| - p
  {
    var n := CompleteLength(buffer, p);
    if frame < target && n > 0 {
      WalkStops(buffer, p + n, if buffer[p] == 0x12 then frame + 1 else frame, target);
    }
  }

  ghost predicate WalkedTo(s: seq<byte>, o: Origin, base: nat, place: (nat, int)) {
    Boundary(s, o.pos, o.frame, base + place.0, place.1)
  }

  /** Re-walking from a record boundary ends on a record boundary. */
  lemma {:induction false} WalkEndsOnBoundary(buffer: seq<byte>, base: nat, s: seq<byte>, o: Origin, p: nat, frame: int,
                                              target: int)
    requires StretchOf(buffer, s, base) && p <= |buffer| && Boundary(s, o.pos, o.frame, base + p, frame)
    ensures WalkedTo(s, o, base, Walk(buffer, p, frame, target))
    decreases |buffer| - p
  {
    var n := CompleteLength(buffer, p);
    if frame < target && n > 0 {
      var frame' := if buffer[p] == 0x12 then frame + 1 else frame;
      CompleteExtends(buffer, base, s, o, p, frame, frame');
      WalkEndsOnBoundary(buffer, base, s, o, p + n, frame', target);
    }
  }

  lemma CompleteExtends(buffer: seq<byte>, base: nat, s: seq<byte>, o: Origin, p: nat, frame: int, frame': int)
    requires StretchOf(buffer, s, base) && p < |buffer| && Boundary(s, o.pos, o.frame, base + p, frame)
    requires CompleteLength(buffer, p) > 0 && frame' == if buffer[p] == 0x12 then frame + 1 else frame
    ensures Boundary(s, o.pos, o.frame, base + (p + CompleteLength(buffer, p)), frame')
  {
    CompleteIsRecord(buffer, s, base, p);
    BoundaryExtends(s, o.pos, o.frame, base + p, frame);
    assert base + p + CompleteLength(buffer, p) == base + (p + CompleteLength(buffer, p));
  }

  lemma {:induction false} BestFromLaw(snaps: seq<Snapshot>, frame: int, i: nat, best: nat)
    requires best < |snaps| && i <= |snaps| && Spaced(snaps)
    requires best < i || (i == 0 && best == 0)
    requires forall j :: best < j < i ==> snaps[j].frame > frame
    requires i > 0 ==> best == i - 1
    requires i > 0 ==> snaps[best].frame <= frame
    ensures var b := BestFrom(snaps, frame, i, best);
            && (snaps[0].frame <= frame ==> snaps[b].frame <= frame)
            && (snaps[0].frame > frame ==> b == 0)
            && (forall j :: b < j < |snaps| ==> snaps[j].frame > frame)
    decreases |snaps| - i
  {
    if i == |snaps| || snaps[i].frame > frame {
      forall j | BestFrom(snaps, frame, i, best) < j < |snaps|
        ensures snaps[j].frame > frame
      {
        assert j > i ==> snaps[j].frame - snaps[i].frame >= SNAPSHOT_GAP;
      }
    } else {
      assert i > 0 ==> snaps[i].frame - snaps[0].frame >= SNAPSHOT_GAP;
      BestFromLaw(snaps, frame, i + 1, i);
    }
  }

  /** The snapshot that a rewind to the frame starts from. */
  lemma BestIsBoundary(w: Watch, s: seq<byte>, o: Origin, frame: int) returns (snap: Snapshot)
    requires SnapshotsOk(w, s, o) && w.snapshots != []
    ensures snap == w.snapshots[BestFrom(w.snapshots, frame, 0, 0)]
    ensures snap.offset <= |w.buffer| && Boundary(s, o.pos, o.frame, w.base + snap.offset, snap.frame)
    ensures if w.snapshots[0].frame <= frame then snap.frame <= frame else snap == w.snapshots[0]
  {
    BestFromLaw(w.snapshots, frame, 0, 0);
    snap := w.snapshots[BestFrom(w.snapshots, frame, 0, 0)];
    assert SnapshotOk(snap, |w.buffer|, s, o, w.base);
  }

  /** Wherever a rewind stops, it is a record boundary with exactly `frames` inputs before it. It stops at
      the frame asked for; or at the oldest snapshot if that frame lies before all of them; or, short of
      that frame, at a record that is not complete in the buffer. */
  lemma SoughtIsValid(w: Watch, s: seq<byte>, o: Origin, frame: int)
    requires Valid(w, s, o) && w.playing
    ensures var w' := Sought(w, frame);
            && Valid(w', s, o)
            && (w.snapshots != [] && w.snapshots[0].frame > frame ==> w'.frames == w.snapshots[0].frame)
            && (w.snapshots != [] && w.snapshots[0].frame <= frame ==>
                  w'.frames == frame || (w'.frames < frame && CompleteLength(w'.buffer, w'.ptr) == 0))
  {
    if w.snapshots != [] {
      var snap := BestIsBoundary(w, s, o, frame);
      var goal := Walk(w.buffer, snap.offset, snap.frame, frame);
      WalkIsValid(w, s, o, snap, frame, goal);
      WalkStops(w.buffer, snap.offset, snap.frame, frame);
    }
  }

  lemma WalkIsValid(w: Watch, s: seq<byte>, o: Origin, snap: Snapshot, frame: int, goal: (nat, int))
    requires Valid(w, s, o) && w.playing && snap.offset <= |w.buffer|
    requires Boundary(s, o.pos, o.frame, w.base + snap.offset, snap.frame)
    requires WalksTo(w.buffer, snap.offset, snap.frame, frame, goal)
    ensures Valid(w.(ptr := goal.0, frames := goal.1), s, o)
  {
    BufferIsStretch(s, w.base, w.buffer, w.feed);
    WalkEndsOnBoundary(w.buffer, w.base, s, o, snap.offset, snap.frame, frame);
    MoveKeepsView(w, w.(ptr := goal.0, frames := goal.1), s, o);
  }

  /** From a place p with `frame` inputs before it, the input before frame `target` begins at q: it and all
      that lies between are plain and in the buffer. */
  ghost predicate InputInBuffer(buffer: seq<byte>, base: nat, s: seq<byte>, p: nat, frame: int, q: nat, target: int) {
    && p <= q && Boundary(s, base + p, frame, base + q, target - 1) && RecordAt(s, base + q).Input?
    && q + Width(RecordAt(s, base + q)) <= |buffer| && Plain(s, base + p, base + q + Width(RecordAt(s, base + q)))
  }

  /** What a re-walk can pass. */
  ghost predicate PlainRecord(r: Record) {
    !r.Cut? && !r.Unknown? && (r.Input? ==> r.length - 3 < 0x8000)
  }

  /** One record of a re-walk: it goes on if the record is plain and in the buffer. */
  lemma WalkStep(buffer: seq<byte>, base: nat, s: seq<byte>, p: nat, frame: int, target: int, goal: (nat, int))
    requires StretchOf(buffer, s, base) && frame < target && WalksTo(buffer, p, frame, target, goal)
    ensures var r := RecordAt(s, base + p);
            if PlainRecord(r) && p + Width(r) <= |buffer| then
              WalksTo(buffer, p + Width(r), frame + Inputs(r), target, goal)
            else goal == (p, frame)
  {
    var n := CompleteLength(buffer, p);
    CompleteIsRecord(buffer, s, base, p);
    if n > 0 {
      WalkGoesOn(buffer, p, frame, target, goal, n, frame + Inputs(RecordAt(s, base + p)));
    } else {
      WalkOver(buffer, p, frame, target, goal);
    }
  }

  lemma FirstIsPlain(buffer: seq<byte>, base: nat, s: seq<byte>, p: nat, frame: int, q: nat, target: int)
    requires InputInBuffer(buffer, base, s, p, frame, q, target)
    ensures PlainRecord(RecordAt(s, base + p)) && p + Width(RecordAt(s, base + p)) <= |buffer|
  {
    if !(p == q && frame == target - 1) {
      BoundarySteps(s, base + p, frame, base + q, target - 1);
    }
  }

  lemma WalkEnters(buffer: seq<byte>, base: nat, s: seq<byte>, p: nat, frame: int, q: nat, target: int,
                   goal: (nat, int))
    returns (p': nat, frame': int)
    requires StretchOf(buffer, s, base) && frame < target && WalksTo(buffer, p, frame, target, goal)
    requires InputInBuffer(buffer, base, s, p, frame, q, target)
    ensures p' == p + Width(RecordAt(s, base + p)) && frame' == frame + Inputs(RecordAt(s, base + p))
    ensures WalksTo(buffer, p', frame', target, goal)
  {
    p', frame' := p + Width(RecordAt(s, base + p)), frame + Inputs(RecordAt(s, base + p));
    FirstIsPlain(buffer, base, s, p, frame, q, target);
    WalkStep(buffer, base, s, p, frame, target, goal);
  }

  /** A re-walk over plain records that are all buffered reaches the target. */
  lemma {:induction false} WalkReaches(buffer: seq<byte>, base: nat, s: seq<byte>, p: nat, frame: int, q: nat,
                                       target: int, goal: (nat, int))
    requires StretchOf(buffer, s, base) && frame < target && WalksTo(buffer, p, frame, target, goal)
    requires InputInBuffer(buffer, base, s, p, frame, q, target)
    ensures goal.1 == target
    decreases q - p
  {
    var p', frame' := WalkEnters(buffer, base, s, p, frame, q, target, goal);
    if p == q && frame == target - 1 {
      WalkStays(buffer, p', target, goal);
    } else {
      PlainStep(buffer, base, s, p, frame, q, target, p', frame');
      WalkReaches(buffer, base, s, p', frame', q, target, goal);
    }
  }

  lemma WalkStays(buffer: seq<byte>, p: nat, target: int, goal: (nat, int))
    requires WalksTo(buffer, p, target, target, goal)
    ensures goal == (p, target)
  {
  }

  /** The first record of such a stretch. */
  lemma PlainStep(buffer: seq<byte>, base: nat, s: seq<byte>, p: nat, frame: int, q: nat, target: int, p': nat,
                  frame': int)
    requires InputInBuffer(buffer, base, s, p, frame, q, target) && !(p == q && frame == target - 1)
    requires p' == p + Width(RecordAt(s, base + p)) && frame' == frame + Inputs(RecordAt(s, base + p))
    ensures p < p' <= q && frame' < target && InputInBuffer(buffer, base, s, p', frame', q, target)
  {
    BoundarySteps(s, base + p, frame, base + q, target - 1);
    assert base + p' == base + p + Width(RecordAt(s, base + p));
  }

  lemma InputHere(buffer: seq<byte>, base: nat, s: seq<byte>, p: nat, frame: int)
    requires var r := RecordAt(s, base + p); r.Input? && PlainRecord(r) && p + Width(r) <= |buffer|
    ensures InputInBuffer(buffer, base, s, p, frame, p, frame + 1)
  {
    BoundaryItself(s, base + p, frame);
  }

  /** And a re-walk that reaches its target has walked over such records. */
  lemma {:induction false} WalkReached(buffer: seq<byte>, base: nat, s: seq<byte>, p: nat, frame: int, target: int,
                                       goal: (nat, int))
    returns (q: nat)
    requires StretchOf(buffer, s, base) && frame < target && WalksTo(buffer, p, frame, target, goal) && goal.1 == target
    ensures InputInBuffer(buffer, base, s, p, frame, q, target)
    decreases |buffer| - p
  {
    var p', frame' := WalkWentOn(buffer, base, s, p, frame, target, goal);
    if frame' == target {
      q := p;
      InputHere(buffer, base, s, p, frame);
    } else {
      q := WalkReached(buffer, base, s, p', frame', target, goal);
      PlainInFront(buffer, base, s, p, frame, p', frame', q, target);
    }
  }

  lemma WalkWentOn(buffer: seq<byte>, base: nat, s: seq<byte>, p: nat, frame: int, target: int, goal: (nat, int))
    returns (p': nat, frame': int)
    requires StretchOf(buffer, s, base) && frame < target && WalksTo(buffer, p, frame, target, goal) && goal.1 == target
    ensures var r := RecordAt(s, base + p);
            PlainRecord(r) && p < p' == p + Width(r) <= |buffer| && frame' == frame + Inputs(r) <= target
    ensures WalksTo(buffer, p', frame', target, goal)
  {
    WalkStep(buffer, base, s, p, frame, target, goal);
    p', frame' := p + Width(RecordAt(s, base + p)), frame + Inputs(RecordAt(s, base + p));
  }

  /** A plain, buffered record in front of such a stretch. */
  lemma PlainInFront(buffer: seq<byte>, base: nat, s: seq<byte>, p: nat, frame: int, p': nat, frame': int, q: nat,
                     target: int)
    requires var r := RecordAt(s, base + p); PlainRecord(r) && p' == p + Width(r) && frame' == frame + Inputs(r)
    requires InputInBuffer(buffer, base, s, p', frame', q, target)
    ensures InputInBuffer(buffer, base, s, p, frame, q, target)
  {
    assert base + p + Width(RecordAt(s, base + p)) == base + p';
    BoundaryPrepends(s, Place(base + p, frame), Place(base + p', frame'), base + q, target - 1);
  }

  /** A rewind lands on exactly the frame asked for if and only if the chosen snapshot is of that frame, or
      of an earlier one and from it on the buffer holds every record up to the input before that frame,
      with no unknown byte and no input of 32768 bytes or more among them (no recorder writes either). */
  lemma SeekLandsOnTheFrame(w: Watch, s: seq<byte>, o: Origin, frame: int)
    requires Valid(w, s, o) && w.playing && w.snapshots != []
    ensures var snap := w.snapshots[BestFrom(w.snapshots, frame, 0, 0)];
            Sought(w, frame).frames == frame <==>
              snap.frame == frame
              || (snap.frame < frame
                  && exists q :: InputInBuffer(w.buffer, w.base, s, snap.offset, snap.frame, q, frame))
  {
    var snap := BestIsBoundary(w, s, o, frame);
    BufferIsStretch(s, w.base, w.buffer, w.feed);
    WalkReachesIff(w.buffer, w.base, s, snap.offset, snap.frame, frame, Walk(w.buffer, snap.offset, snap.frame, frame));
  }

  lemma WalkReachesIff(buffer: seq<byte>, base: nat, s: seq<byte>, p: nat, frame: int, target: int, goal: (nat, int))
    requires StretchOf(buffer, s, base) && WalksTo(buffer, p, frame, target, goal)
    ensures goal.1 == target <==>
            frame == target || (frame < target && exists q :: InputInBuffer(buffer, base, s, p, frame, q, target))
  {
    if frame < target {
      if q :| InputInBuffer(buffer, base, s, p, frame, q, target) {
        WalkReaches(buffer, base, s, p, frame, q, target, goal);
      }
      if goal.1 == target {
        var q := WalkReached(buffer, base, s, p, frame, target, goal);
      }
    } else {
      WalkStops(buffer, p, frame, target);
    }
  }
}
