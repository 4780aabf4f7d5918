/** Serving a recording frame by frame to a resumed match, on the host and on a peer that joins at a
    downloaded state (kcore/kaillera_retryconnect.cpp). */
module RetryConnect {
  import opened Bytes
  import opened KrecReader

  const LAST_FRAME_MAX := 256

  /** A frame of the recording, of which `copied` could be loaded, or the repetition of the last one. */
  datatype Served = FromRecording(length: nat, copied: seq<byte>) | Repeated

  /** kaillera_retryconnect_modify_play_values: chats and drops are read past; an unknown byte or the end
      of the file repeats the session's last frame. */
  function Serve(r: Reader): (res: (Reader, Served))
    requires Valid(r)
    ensures Valid(res.0) && res.0.buffer == r.buffer && res.0.header == r.header
    ensures res.1.FromRecording? ==> |res.1.copied| <= Min(res.1.length, LAST_FRAME_MAX)
    decreases |r.buffer| - r.ptr
  {
    var (next, report) := NextRecord(r, LAST_FRAME_MAX);
    match report.kind
    case Input => (next, FromRecording(report.length, report.copied))
    case Chat => Serve(next)
    case Drop => Serve(next)
    case _ => (next, Repeated)
  }

  /** The reader at a frame, as a local rewind of the host or a peer that downloaded a state asks for it. */
  function Sought(r: Reader, frameIndex: int): (r': Reader)
    requires Valid(r)
    ensures Valid(r') && r'.buffer == r.buffer && r'.header == r.header
  {
    ReadTo(Rewound(r), frameIndex, 0)
  }

  class RetrySession {
    const file: KrecFile
    const host: bool
    var lastFrame: seq<byte>

    constructor (file: KrecFile, host: bool)
      ensures this.file == file && this.host == host && lastFrame == []
    {
      this.file, this.host := file, host;
      lastFrame := [];
    }

    /** `values` is the caller's buffer for all players. An input that the end of the file cuts short leaves
        the caller's own bytes behind what was loaded, and these are kept as the last frame with it. */
    method ModifyPlayValues(values: array<byte>) returns (length: nat)
      requires Valid(file.State()) && values.Length >= LAST_FRAME_MAX && |lastFrame| <= LAST_FRAME_MAX
      modifies this, file, values
      ensures Valid(file.State()) && |lastFrame| <= LAST_FRAME_MAX
      ensures file.State() == Serve(old(file.State())).0
      ensures match Serve(old(file.State())).1
              case FromRecording(l, copied) =>
                && length == l && values[..|copied|] == copied
                && values[|copied|..] == old(values[..])[|copied|..]
                && lastFrame == values[..Min(l, LAST_FRAME_MAX)]
              case Repeated =>
                && length == |lastFrame| && values[..|lastFrame|] == lastFrame == old(lastFrame)
                && values[|lastFrame|..] == old(values[..])[|lastFrame|..]
    {
      ghost var goal := Serve(file.State());
      while true
        invariant Valid(file.State()) && Serve(file.State()) == goal
        invariant values[..] == old(values[..]) && lastFrame == old(lastFrame)
        decreases |file.buffer| - file.ptr
      {
        var report := file.Next(LAST_FRAME_MAX);
        if report.kind.Input? {
          Copy(values, report.copied);
          lastFrame := values[..Min(report.length, LAST_FRAME_MAX)];
          return report.length;
        }
        if report.kind.Chat? || report.kind.Drop? {
          continue;
        }
        Copy(values, lastFrame);
        return |lastFrame|;
      }
    }

    method Copy(values: array<byte>, bytes: seq<byte>)
      requires |bytes| <= values.Length
      modifies values
      ensures values[..|bytes|] == bytes && values[|bytes|..] == old(values[..])[|bytes|..]
    {
      for i := 0 to |bytes|
        invariant forall k :: 0 <= k < i ==> values[k] == bytes[k]
        invariant forall k :: i <= k < values.Length ==> values[k] == old(values[k])
      {
        values[i] := bytes[i];
      }
    }

    method DownloadState(frameIndex: int)
      requires Valid(file.State())
      modifies file
      ensures file.State() == Sought(old(file.State()), frameIndex)
    {
      file.SeekToFrame(frameIndex);
    }

    /** The host's rewind: the frontend restores a state of its own and the reader follows. */
    method SeekLocal(frameIndex: int)
      requires Valid(file.State())
      modifies file
      ensures file.State() == if host then Sought(old(file.State()), frameIndex) else old(file.State())
    {
      if !host {
        return;
      }
      file.SeekToFrame(frameIndex);
    }
  }

  /** n calls in a row and what they served. */
  function ServeMany(s: Reader, n: nat): (res: (Reader, seq<Served>))
    requires Valid(s)
    ensures Valid(res.0) && |res.1| == n
    decreases n
  {
    if n == 0 then (s, [])
    else
      var (s1, first) := Serve(s);
      var (s2, rest) := ServeMany(s1, n - 1);
      (s2, [first] + rest)
  }

  // ----- what a session has still to serve -----

  /** The recorded inputs from the reader's position to the end of the file. */
  function Inputs(r: Reader): seq<Served>
    requires Valid(r)
    decreases |r.buffer| - r.ptr
  {
    if AtEnd(r) then []
    else
      var (r', report) := NextRecord(r, LAST_FRAME_MAX);
      if report.kind.Input? then [FromRecording(report.length, report.copied)] + Inputs(r') else Inputs(r')
  }

  /** The answers that came from the recording. */
  function Recorded(served: seq<Served>): seq<Served> {
    if served == [] then []
    else (if served[0].FromRecording? then [served[0]] else []) + Recorded(served[1..])
  }

  /** One call serves the next recorded input, or, repeating the last frame, none. */
  lemma {:induction false} ServeTakesTheNextInput(s: Reader)
    requires Valid(s)
    ensures Inputs(s) == Recorded([Serve(s).1]) + Inputs(Serve(s).0)
    ensures Serve(s).0.frames == s.frames + |Recorded([Serve(s).1])|
    decreases |s.buffer| - s.ptr
  {
    var (r, report) := NextRecord(s, LAST_FRAME_MAX);
    assert Recorded([Serve(s).1]) == if Serve(s).1.FromRecording? then [Serve(s).1] else [];
    if report.kind.Chat? || report.kind.Drop? {
      ServeTakesTheNextInput(r);
    }
  }

  /** What was served from the recording and what is left to serve make up the recording. */
  lemma {:induction false} ServedAndLeft(s: Reader, n: nat)
    requires Valid(s)
    ensures var (s', served) := ServeMany(s, n);
            && s'.buffer == s.buffer && s'.header == s.header
            && Inputs(s) == Recorded(served) + Inputs(s')
            && s'.frames == s.frames + |Recorded(served)|
    decreases n
  {
    if n > 0 {
      ServeTakesTheNextInput(s);
      ServedAndLeft(Serve(s).0, n - 1);
      var rest := ServeMany(Serve(s).0, n - 1);
      RecordedCons(Serve(s).1, rest.1);
      Regrouped(Recorded([Serve(s).1]), Recorded(rest.1), Inputs(rest.0));
    }
  }

  lemma RecordedCons(first: Served, rest: seq<Served>)
    ensures Recorded([first] + rest) == Recorded([first]) + Recorded(rest)
  {
    assert ([first] + rest)[1..] == rest && [first][1..] == [];
  }

  lemma SameRecord(a: Reader, b: Reader, room: nat)
    requires SamePlace(a, b)
    ensures NextRecord(a, room).1 == NextRecord(b, room).1
    ensures SamePlace(NextRecord(a, room).0, NextRecord(b, room).0)
  {
    RoomDoesNotMatter(a, b, room, room);
    if !AtEnd(a) && a.buffer[a.ptr] == 0x12 {
      assert InputRecord(a, room).1 == InputRecord(b, room).1;
    }
  }

  lemma {:induction false} InputsAgree(a: Reader, b: Reader)
    requires SamePlace(a, b)
    ensures Inputs(a) == Inputs(b)
    decreases |a.buffer| - a.ptr
  {
    if !AtEnd(a) {
      SameRecord(a, b, LAST_FRAME_MAX);
      InputsAgree(NextRecord(a, LAST_FRAME_MAX).0, NextRecord(b, LAST_FRAME_MAX).0);
    }
  }

  /** A seek passes over as many recorded inputs as it counts frames. */
  lemma {:induction false} ReadToPassesInputs(r: Reader, target: int)
    requires Valid(r)
    ensures Passes(r, ReadTo(r, target, 0))
    decreases |r.buffer| - r.ptr
  {
    if r.frames < target && !AtEnd(r) {
      var next := NextRecord(r, 0).0;
      InputsBehind(r, next);
      ReadToPassesInputs(next, target);
      ReadToReads(r, target, 0);
      PassesOn(r, next, ReadTo(next, target, 0));
    }
  }

  /** r' lies ahead of r, behind as many of its inputs as it counts frames more. */
  ghost predicate Passes(r: Reader, r': Reader) {
    && Valid(r) && Valid(r')
    && r.frames <= r'.frames <= r.frames + |Inputs(r)| && Inputs(r') == Inputs(r)[r'.frames - r.frames..]
  }

  lemma PassesOn(r: Reader, next: Reader, r': Reader)
    requires Passes(r, next) && Passes(next, r')
    ensures Passes(r, r')
  {
    SliceOfSlice(Inputs(r), next.frames - r.frames, r'.frames - next.frames);
  }

  lemma SliceOfSlice(xs: seq<Served>, i: nat, j: nat)
    requires i + j <= |xs|
    ensures xs[i..][j..] == xs[i + j..]
  {
  }

  /** Skipping one record leaves the inputs behind it. */
  lemma InputsBehind(r: Reader, next: Reader)
    requires Valid(r) && !AtEnd(r) && next == NextRecord(r, 0).0
    ensures Passes(r, next)
  {
    RoomDoesNotMatter(r, r, 0, LAST_FRAME_MAX);
    InputsAgree(next, NextRecord(r, LAST_FRAME_MAX).0);
  }

  /** A seek stops short of its target only at the end of the inputs. */
  lemma {:induction false} ReadToStopsAtTheFrame(r: Reader, target: int)
    requires Valid(r) && r.frames <= target <= r.frames + |Inputs(r)|
    ensures ReadTo(r, target, 0).frames == target
  {
    ReadToCounts(r, target, 0);
    ReadToPassesInputs(r, target);
    assert AtEnd(ReadTo(r, target, 0)) ==> Inputs(ReadTo(r, target, 0)) == [];
  }

  // ----- call by call -----

  lemma {:induction false} ServeAgrees(a: Reader, b: Reader)
    requires SamePlace(a, b)
    ensures SamePlace(Serve(a).0, Serve(b).0) && Serve(a).1 == Serve(b).1
    decreases |a.buffer| - a.ptr
  {
    SameRecord(a, b, LAST_FRAME_MAX);
    var (ra, reportA) := NextRecord(a, LAST_FRAME_MAX);
    var (rb, reportB) := NextRecord(b, LAST_FRAME_MAX);
    if reportA.kind.Chat? || reportA.kind.Drop? {
      ServeAgrees(ra, rb);
    }
  }

  lemma {:induction false} ServeManyAgrees(a: Reader, b: Reader, n: nat)
    requires SamePlace(a, b)
    ensures SamePlace(ServeMany(a, n).0, ServeMany(b, n).0) && ServeMany(a, n).1 == ServeMany(b, n).1
    decreases n
  {
    if n > 0 {
      ServeAgrees(a, b);
      ServeManyAgrees(Serve(a).0, Serve(b).0, n - 1);
    }
  }

  /** A bounded reading reads no further when asked again, and reads on when asked for more. */
  lemma {:induction false} ReadToThrough(start: Reader, mid: Reader, target: int)
    requires Valid(start) && start.frames <= target && mid == ReadTo(start, target, 0)
    ensures ReadTo(start, target + 1, 0) == ReadTo(mid, target + 1, 0)
    decreases |start.buffer| - start.ptr
  {
    if start.frames < target && !AtEnd(start) {
      ReadToThrough(NextRecord(start, 0).0, mid, target);
    }
  }

  lemma ReadToReads(r: Reader, target: int, room: nat)
    requires Valid(r) && r.frames < target && !AtEnd(r)
    ensures ReadTo(r, target, room) == ReadTo(NextRecord(r, room).0, target, room)
  {
  }

  lemma ReadToStays(r: Reader, target: int, room: nat)
    requires Valid(r) && r.frames >= target
    ensures ReadTo(r, target, room) == r
  {
  }

  /** A call that serves a frame of the recording reads exactly to the next frame. */
  lemma {:induction false} ServeReadsToNextFrame(s: Reader, target: int)
    requires Valid(s) && Serve(s).1.FromRecording? && target == s.frames + 1
    ensures Serve(s).0 == ReadTo(s, target, LAST_FRAME_MAX)
    decreases |s.buffer| - s.ptr
  {
    var next := NextRecord(s, LAST_FRAME_MAX);
    ReadToReads(s, target, LAST_FRAME_MAX);
    if next.1.kind.Input? {
      ReadToStays(next.0, target, LAST_FRAME_MAX);
    } else {
      ReadsOn(s, next.0, target);
      ServeReadsToNextFrame(next.0, target);
    }
  }

  lemma ReadsOn(s: Reader, next: Reader, target: int)
    requires Valid(s) && next == NextRecord(s, LAST_FRAME_MAX).0
    requires Serve(s).1.FromRecording? && !NextRecord(s, LAST_FRAME_MAX).1.kind.Input?
    ensures Serve(s) == Serve(next)
  {
  }

  /** The reader stands where a seek to its own frame would leave it. */
  ghost predicate JustServed(r: Reader) {
    Valid(r) && SamePlace(r, ReadTo(Rewound(r), r.frames, 0))
  }

  // ----- how far a joining peer lags -----

  ghost predicate AllRepeated(served: seq<Served>) {
    forall i :: 0 <= i < |served| ==> served[i].Repeated?
  }

  /** Calls that begin in s, serve what is listed, and end in s'. */
  ghost predicate Calls(s: Reader, served: seq<Served>, s': Reader) {
    Valid(s) && ServeMany(s, |served|) == (s', served)
  }

  lemma CallsHead(s: Reader, served: seq<Served>, s': Reader)
    requires Calls(s, served, s') && served != []
    ensures served[0] == Serve(s).1 && Calls(Serve(s).0, served[1..], s')
  {
  }

  lemma CallsCons(s: Reader, rest: seq<Served>, s': Reader)
    requires Valid(s) && Calls(Serve(s).0, rest, s')
    ensures Calls(s, [Serve(s).1] + rest, s')
  {
  }

  lemma {:induction false} CallsJoin(s: Reader, xs: seq<Served>, mid: Reader, ys: seq<Served>, s': Reader)
    requires Calls(s, xs, mid) && Calls(mid, ys, s')
    ensures Calls(s, xs + ys, s')
    decreases |xs|
  {
    if xs == [] {
      assert xs + ys == ys;
    } else {
      var next, first, rest := Serve(s).0, xs[0], xs[1..];
      CallsHead(s, xs, mid);
      CallsJoin(next, rest, mid, ys, s');
      CallsCons(s, rest + ys, s');
      assert xs + ys == [first] + (rest + ys);
    }
  }

  /** Calls one after the other. */
  lemma ServeManyInParts(s: Reader, m: nat, n: nat)
    requires Valid(s)
    ensures var (mid, xs) := ServeMany(s, m);
            var (s', ys) := ServeMany(mid, n);
            ServeMany(s, m + n) == (s', xs + ys)
  {
    var (mid, xs) := ServeMany(s, m);
    var (s', ys) := ServeMany(mid, n);
    CallsJoin(s, xs, mid, ys, s');
  }

  lemma ServeOnce(s: Reader)
    requires Valid(s)
    ensures ServeMany(s, 1) == (Serve(s).0, [Serve(s).1])
  {
    assert Calls(Serve(s).0, [], Serve(s).0);
    CallsCons(s, [], Serve(s).0);
    assert [Serve(s).1] + [] == [Serve(s).1];
  }

  /** c calls that only repeat bring a reader at r to the place of `at`. */
  ghost predicate Behind(r: Reader, c: nat, at: Reader) {
    Valid(r) && SamePlace(ServeMany(r, c).0, at) && AllRepeated(ServeMany(r, c).1)
  }

  lemma BehindNone(r: Reader, at: Reader)
    requires SamePlace(r, at)
    ensures Behind(r, 0, at)
  {
  }

  /** One more repetition of the one ahead leaves the other one call further behind. */
  lemma BehindOneMore(r: Reader, c: nat, s: Reader)
    requires Behind(r, c, s) && Serve(s).1.Repeated?
    ensures Behind(r, c + 1, Serve(s).0)
  {
    var mid := ServeMany(r, c).0;
    ServeAgrees(mid, s);
    ServeManyInParts(r, c, 1);
    ServeOnce(mid);
    AllRepeatedSnoc(ServeMany(r, c).1, Serve(mid).1);
  }

  lemma AllRepeatedSnoc(served: seq<Served>, last: Served)
    requires AllRepeated(served) && last.Repeated?
    ensures AllRepeated(served + [last])
  {
  }

  /** Whoever is behind by c calls is served c repetitions and then what the other is served. */
  lemma BehindServes(b: Reader, c: nat, a: Reader, k: nat)
    requires Behind(b, c, a)
    ensures ServeMany(b, c + k).1[..c] == ServeMany(b, c).1 && ServeMany(b, c + k).1[c..] == ServeMany(a, k).1
  {
    ServeManyInParts(b, c, k);
    ServeManyAgrees(ServeMany(b, c).0, a, k);
  }

  lemma SamePlaceTrans(a: Reader, b: Reader, c: Reader)
    requires SamePlace(b, a) && SamePlace(c, b)
    ensures SamePlace(a, c)
  {
  }

  /** A repetition passes no frame: reading to the next frame may as well start behind it. */
  lemma {:induction false} RepetitionPassesNoFrame(s: Reader, target: int)
    requires Valid(s) && Serve(s).1.Repeated? && s.frames < target
    ensures ReadTo(s, target, LAST_FRAME_MAX) == ReadTo(Serve(s).0, target, LAST_FRAME_MAX)
    ensures Serve(s).0.frames == s.frames
    decreases |s.buffer| - s.ptr
  {
    if !AtEnd(s) {
      var next := NextRecord(s, LAST_FRAME_MAX);
      ReadToReads(s, target, LAST_FRAME_MAX);
      if next.1.kind.Chat? || next.1.kind.Drop? {
        RepetitionPassesNoFrame(next.0, target);
      }
    }
  }

  lemma {:induction false} RepetitionsPassNoFrame(s: Reader, c: nat, target: int)
    requires Valid(s) && AllRepeated(ServeMany(s, c).1) && s.frames < target
    ensures ReadTo(s, target, LAST_FRAME_MAX) == ReadTo(ServeMany(s, c).0, target, LAST_FRAME_MAX)
    decreases c
  {
    if c > 0 {
      RepeatedSplits(Serve(s).1, ServeMany(Serve(s).0, c - 1).1);
      RepetitionPassesNoFrame(s, target);
      RepetitionsPassNoFrame(Serve(s).0, c - 1, target);
    }
  }

  lemma RepeatedSplits(first: Served, rest: seq<Served>)
    requires AllRepeated([first] + rest)
    ensures first.Repeated? && AllRepeated(rest)
  {
    assert ([first] + rest)[0] == first;
    forall i | 0 <= i < |rest|
      ensures rest[i].Repeated?
    {
      assert ([first] + rest)[i + 1] == rest[i];
    }
  }

  /** Where a seek to the session's own frame leads: right behind the last input it was served. */
  function Boundary(r: Reader): (b: Reader)
    requires Valid(r)
    ensures Valid(b) && b.buffer == r.buffer && b.header == r.header
  {
    ReadTo(Rewound(r), r.frames, 0)
  }

  /** A joining peer would stand where it has c calls to repeat before it reaches the session's place. */
  ghost predicate LaggedBy(s: Reader, c: nat) {
    Valid(s) && Boundary(s).frames == s.frames && Behind(Boundary(s), c, s)
  }

  /** Whoever is c repetitions behind is served the next input too. */
  lemma BehindReadsTheInput(s: Reader, b: Reader, c: nat, target: int, next: Reader)
    requires Behind(b, c, s) && Valid(s) && b.frames < target == s.frames + 1
    requires Serve(s).1.FromRecording? && next == Serve(s).0
    ensures SamePlace(ReadTo(b, target, LAST_FRAME_MAX), next)
  {
    var far := ServeMany(b, c).0;
    ServeReadsToNextFrame(s, target);
    RepetitionsPassNoFrame(b, c, target);
    ReadToAgrees(far, s, target, LAST_FRAME_MAX, LAST_FRAME_MAX);
  }

  /** A seek goes on from where a seek to the frame before would have led. */
  lemma SeekGoesOn(r: Reader, next: Reader, b: Reader, from: nat, target: nat)
    requires Valid(r) && Valid(next) && next.buffer == r.buffer && next.header == r.header
    requires b == ReadTo(Rewound(r), from, 0) && target == from + 1
    ensures SamePlace(ReadTo(b, target, LAST_FRAME_MAX), ReadTo(Rewound(next), target, 0))
  {
    ReadToThrough(Rewound(r), b, from);
    ReadToAgrees(Rewound(r), Rewound(next), target, 0, 0);
    ReadToAgrees(b, b, target, LAST_FRAME_MAX, 0);
    SamePlaceTrans(ReadTo(Rewound(next), target, 0), ReadTo(b, target, 0), ReadTo(b, target, LAST_FRAME_MAX));
  }

  lemma InputCounts(s: Reader)
    requires Valid(s) && Serve(s).1.FromRecording?
    ensures Serve(s).0.frames == s.frames + 1
  {
    ServeTakesTheNextInput(s);
    RecordedOne(Serve(s).1);
  }

  lemma RecordedOne(served: Served)
    requires served.FromRecording?
    ensures |Recorded([served])| == 1
  {
    assert [served][1..] == [];
  }

  lemma InputIsSought(s: Reader, next: Reader, b: Reader, mid: Reader, b': Reader)
    requires Valid(s) && Serve(s).1.FromRecording? && next == Serve(s).0
    requires b == Boundary(s) && mid == ReadTo(b, s.frames + 1, LAST_FRAME_MAX) && b' == Boundary(next)
    ensures SamePlace(mid, b')
  {
    InputCounts(s);
    SeekGoesOn(s, next, b, s.frames, next.frames);
  }

  /** A served input puts the session right behind it, however far a joining peer was behind before. */
  lemma InputCatchesUp(s: Reader, c: nat, next: Reader, b': Reader)
    requires LaggedBy(s, c) && Serve(s).1.FromRecording? && next == Serve(s).0 && b' == Boundary(next)
    ensures SamePlace(b', next)
  {
    var b := Boundary(s);
    var mid := ReadTo(b, s.frames + 1, LAST_FRAME_MAX);
    BehindReadsTheInput(s, b, c, s.frames + 1, next);
    InputIsSought(s, next, b, mid, b');
    SamePlaceTrans(next, mid, b');
  }

  /** The bytes of unknown type that a reading from r passes before position `to`. */
  function UnknownBytes(r: Reader, to: nat): nat
    requires Valid(r)
    decreases |r.buffer| - r.ptr
  {
    if AtEnd(r) || r.ptr >= to then 0
    else
      var (next, report) := NextRecord(r, LAST_FRAME_MAX);
      (if report.kind.Unknown? then 1 else 0) + UnknownBytes(next, to)
  }

  /** One repetition, unless it is at the end of the file, passes one byte of unknown type. */
  lemma {:induction false} RepetitionPassesOneByte(s: Reader, to: nat)
    requires Valid(s) && Serve(s).1.Repeated? && !AtEnd(Serve(s).0) && Serve(s).0.ptr <= to
    ensures s.ptr < Serve(s).0.ptr
    ensures UnknownBytes(s, to) == 1 + UnknownBytes(Serve(s).0, to)
    decreases |s.buffer| - s.ptr
  {
    var next := NextRecord(s, LAST_FRAME_MAX);
    if next.1.kind.Chat? || next.1.kind.Drop? {
      RepetitionPassesOneByte(next.0, to);
    }
  }

  lemma {:induction false} RepetitionsCountBytes(s: Reader, c: nat, end: Reader)
    requires Valid(s) && AllRepeated(ServeMany(s, c).1) && end == ServeMany(s, c).0 && !AtEnd(end)
    ensures end.buffer == s.buffer && s.ptr <= end.ptr && UnknownBytes(s, end.ptr) == c
    decreases c
  {
    if c > 0 {
      ServeManyStep(s, c);
      RepeatedSplits(Serve(s).1, ServeMany(Serve(s).0, c - 1).1);
      RepetitionsCountBytes(Serve(s).0, c - 1, end);
      RepetitionPassesOneByte(s, end.ptr);
    }
  }

  lemma ServeManyStep(s: Reader, n: nat)
    requires Valid(s) && n > 0
    ensures ServeMany(s, n) == (ServeMany(Serve(s).0, n - 1).0, [Serve(s).1] + ServeMany(Serve(s).0, n - 1).1)
  {
  }

  /** Before the end of the file, the calls one is behind are the unknown bytes in between. */
  lemma BehindByUnknownBytes(r: Reader, c: nat, at: Reader)
    requires Behind(r, c, at) && !AtEnd(at)
    ensures UnknownBytes(r, at.ptr) == c
  {
    RepetitionsCountBytes(r, c, ServeMany(r, c).0);
  }

  lemma BehindFrom(r: Reader, r': Reader, c: nat, at: Reader)
    requires SamePlace(r', r) && Behind(r, c, at)
    ensures Behind(r', c, at)
  {
    ServeManyAgrees(r', r, c);
  }

  /** Each repetition adds one to the lag, and each served input takes it away. */
  lemma ServeMovesLag(s: Reader, c: nat)
    requires LaggedBy(s, c)
    ensures LaggedBy(Serve(s).0, if Serve(s).1.Repeated? then c + 1 else 0)
  {
    if Serve(s).1.Repeated? {
      RepetitionAddsLag(s, c, Serve(s).0);
    } else {
      InputEndsLag(s, c, Serve(s).0);
    }
  }

  lemma RepetitionAddsLag(s: Reader, c: nat, next: Reader)
    requires LaggedBy(s, c) && Serve(s).1.Repeated? && next == Serve(s).0
    ensures LaggedBy(next, c + 1)
  {
    RepetitionCounts(s);
    BehindOneMore(Boundary(s), c, s);
    ReadToAgrees(Rewound(next), Rewound(s), s.frames, 0, 0);
    BehindFrom(Boundary(s), Boundary(next), c + 1, next);
  }

  lemma RepetitionCounts(s: Reader)
    requires Valid(s) && Serve(s).1.Repeated?
    ensures Serve(s).0.frames == s.frames
  {
    ServeTakesTheNextInput(s);
    RecordedNone(Serve(s).1);
  }

  lemma RecordedNone(served: Served)
    requires served.Repeated?
    ensures Recorded([served]) == []
  {
    assert [served][1..] == [];
  }

  lemma InputEndsLag(s: Reader, c: nat, next: Reader)
    requires LaggedBy(s, c) && Serve(s).1.FromRecording? && next == Serve(s).0
    ensures LaggedBy(next, 0)
  {
    InputCatchesUp(s, c, next, Boundary(next));
    BehindNone(Boundary(next), next);
  }

  /** With no input left, every call repeats. */
  lemma NothingLeftRepeats(s: Reader, n: nat)
    requires Valid(s) && Inputs(s) == []
    ensures AllRepeated(ServeMany(s, n).1)
  {
    ServedAndLeft(s, n);
    NoneRecorded(ServeMany(s, n).1);
  }

  lemma {:induction false} NoneRecorded(served: seq<Served>)
    requires Recorded(served) == []
    ensures AllRepeated(served)
    decreases |served|
  {
    if served != [] {
      NoneRecorded(served[1..]);
      assert served == [served[0]] + served[1..];
    }
  }

  /** With an input left, some first calls repeat, and the next one serves it. */
  lemma {:induction false} NextInputComes(s: Reader) returns (m: nat)
    requires Valid(s) && Inputs(s) != []
    ensures AllRepeated(ServeMany(s, m + 1).1[..m]) && ServeMany(s, m + 1).1[m].FromRecording?
    decreases |s.buffer| - s.ptr
  {
    m := 0;
    ServeTakesTheNextInput(s);
    if Serve(s).1.Repeated? {
      RepetitionMovesOn(s);
      var rest := NextInputComes(Serve(s).0);
      m := rest + 1;
      ServeManyStep(s, m + 1);
      var served := ServeMany(Serve(s).0, rest + 1).1;
      assert ([Serve(s).1] + served)[..m] == [Serve(s).1] + served[..rest];
    }
  }

  lemma RepetitionMovesOn(s: Reader)
    requires Valid(s) && Serve(s).1.Repeated? && Inputs(Serve(s).0) != []
    ensures s.ptr < Serve(s).0.ptr
  {
    InputIsBeforeTheEnd(Serve(s).0);
    RepetitionMoves(s);
  }

  lemma {:induction false} RepetitionMoves(s: Reader)
    requires Valid(s) && Serve(s).1.Repeated? && !AtEnd(Serve(s).0)
    ensures s.ptr < Serve(s).0.ptr
    decreases |s.buffer| - s.ptr
  {
    var next := NextRecord(s, LAST_FRAME_MAX);
    if next.1.kind.Chat? || next.1.kind.Drop? {
      RepetitionMoves(next.0);
    }
  }

  lemma InputIsBeforeTheEnd(r: Reader)
    requires Valid(r) && Inputs(r) != []
    ensures !AtEnd(r)
  {
  }

  // ----- the host and a peer that joins -----

  /** What the host does with its reader: it is served a call, or rewinds or skips to a frame. */
  datatype HostStep = ServeNext | SeekTo(frame: int)

  function Stepped(r: Reader, step: HostStep): (r': Reader)
    requires Valid(r)
    ensures Valid(r') && r'.buffer == r.buffer && r'.header == r.header
  {
    match step
    case ServeNext => Serve(r).0
    case SeekTo(frame) => Sought(r, frame)
  }

  function HostAfter(r: Reader, steps: seq<HostStep>): (r': Reader)
    requires Valid(r)
    ensures Valid(r') && r'.buffer == r.buffer && r'.header == r.header
    decreases |steps|
  {
    if steps == [] then r else HostAfter(Stepped(r, steps[0]), steps[1..])
  }

  /** Of the inputs the start had, the host has those from its frame on, and as long as one is left, a peer
      that joined would lag by some number of calls. */
  ghost predicate HostOk(start: Reader, r: Reader) {
    && Valid(start) && Valid(r) && r.buffer == start.buffer && r.header == start.header
    && r.frames <= |Inputs(start)| && Inputs(r) == Inputs(start)[r.frames..]
    && (Inputs(r) == [] || exists c: nat :: LaggedBy(r, c))
  }

  /** The reader of a file just opened, or rewound. */
  ghost predicate AtStart(r: Reader) {
    Valid(r) && r.ptr == r.header && r.frames == 0
  }

  lemma ServeKeepsHost(start: Reader, r: Reader)
    requires HostOk(start, r)
    ensures HostOk(start, Serve(r).0)
  {
    ServeTakesTheNextInput(r);
    var taken := Recorded([Serve(r).1]);
    assert Inputs(r)[|taken|..] == Inputs(Serve(r).0);
    SliceOfSlice(Inputs(start), r.frames, |taken|);
    if Inputs(Serve(r).0) != [] {
      var c: nat :| LaggedBy(r, c);
      ServeMovesLag(r, c);
    }
  }

  lemma SoughtIsBoundary(r: Reader, frame: int, r': Reader)
    requires Valid(r) && r' == Sought(r, frame) && !AtEnd(r')
    ensures LaggedBy(r', 0)
  {
    var target: int := r'.frames;
    if frame >= 0 {
      ReadToCounts(Rewound(r), frame, 0);
    }
    assert r' == ReadTo(Rewound(r), target, 0);
    ReadToAgrees(Rewound(r'), Rewound(r), target, 0, 0);
    BehindNone(Boundary(r'), r');
  }

  lemma SeekKeepsHost(start: Reader, r: Reader, frame: int)
    requires AtStart(start) && Valid(r) && r.buffer == start.buffer && r.header == start.header
    ensures HostOk(start, Sought(r, frame))
  {
    var r' := Sought(r, frame);
    InputsAgree(Rewound(r), start);
    ReadToPassesInputs(Rewound(r), frame);
    if Inputs(r') != [] {
      SoughtIsBoundary(r, frame, r');
    }
  }

  lemma {:induction false} HostStaysOk(start: Reader, r: Reader, steps: seq<HostStep>)
    requires AtStart(start) && HostOk(start, r)
    ensures HostOk(start, HostAfter(r, steps))
    decreases |steps|
  {
    if steps != [] {
      match steps[0] {
        case ServeNext => ServeKeepsHost(start, r);
        case SeekTo(frame) => SeekKeepsHost(start, r, frame);
      }
      HostStaysOk(start, Stepped(r, steps[0]), steps[1..]);
    }
  }

  /** The host's session goes through these steps: calls of the emulator and rewinds of the frontend. */
  method Perform(session: RetrySession, values: array<byte>, steps: seq<HostStep>)
    requires session.host && Valid(session.file.State()) && |session.lastFrame| <= LAST_FRAME_MAX
    requires values.Length >= LAST_FRAME_MAX
    modifies session, session.file, values
    ensures session.file.State() == HostAfter(old(session.file.State()), steps)
  {
    ghost var goal := HostAfter(session.file.State(), steps);
    var i := 0;
    while i < |steps|
      invariant i <= |steps| && Valid(session.file.State()) && |session.lastFrame| <= LAST_FRAME_MAX
      invariant HostAfter(session.file.State(), steps[i..]) == goal
    {
      match steps[i] {
        case ServeNext =>
          var length := session.ModifyPlayValues(values);
        case SeekTo(frame) =>
          session.SeekLocal(frame);
      }
      i := i + 1;
    }
  }

  /** The host after any calls and seeks on a recording, and a peer on the same recording that joins at its
      state, wherever the peer's own reader stood. */
  ghost predicate JoinsAfter(data: seq<byte>, steps: seq<HostStep>, peer: Reader, host: Reader, joined: Reader) {
    && Open(data).Some? && Valid(peer)
    && peer.buffer == data && peer.header == Open(data).value.header
    && host == HostAfter(Open(data).value, steps)
    && joined == Sought(peer, host.frames)
  }

  lemma HostIsOk(data: seq<byte>, steps: seq<HostStep>)
    requires Open(data).Some?
    ensures HostOk(Open(data).value, HostAfter(Open(data).value, steps))
  {
    var start := Open(data).value;
    SeekKeepsHost(start, start, 0);
    assert Sought(start, 0) == start;
    HostStaysOk(start, start, steps);
  }

  /** A peer that downloads the host's state has exactly the recorded inputs left to serve that the host
      has, at the same frame. */
  lemma PeerIsLeftTheHostsInputs(data: seq<byte>, steps: seq<HostStep>, peer: Reader, host: Reader, joined: Reader)
    requires JoinsAfter(data, steps, peer, host, joined)
    ensures Inputs(joined) == Inputs(host) && joined.frames == host.frames
  {
    HostIsOk(data, steps);
    InputsAgree(Rewound(peer), Open(data).value);
    ReadToPassesInputs(Rewound(peer), host.frames);
    ReadToStopsAtTheFrame(Rewound(peer), host.frames);
  }

  /** Both stand behind the last input the host was served, or sought, and the host c repetitions further. */
  lemma JoinedIsBehind(host: Reader, peer: Reader, joined: Reader, c: nat)
    requires Valid(peer) && peer.buffer == host.buffer && peer.header == host.header && LaggedBy(host, c)
    requires joined == Sought(peer, host.frames)
    ensures Behind(joined, c, host)
  {
    ReadToAgrees(Rewound(peer), Rewound(host), host.frames, 0, 0);
    BehindFrom(Boundary(host), joined, c, host);
  }

  /** b is served c repetitions, and from then on, call by call, what a is served: the same recorded inputs,
      and repetitions at the same calls. */
  ghost predicate Lags(b: Reader, c: nat, a: Reader) {
    && Valid(a) && Valid(b)
    && forall k: nat :: ServedLater(ServeMany(a, k).1, c, ServeMany(b, c + k).1)
  }

  ghost predicate ServedLater(xs: seq<Served>, c: nat, ys: seq<Served>) {
    |ys| == c + |xs| && AllRepeated(ys[..c]) && ys[c..] == xs
  }

  lemma BehindLags(b: Reader, c: nat, a: Reader)
    requires Behind(b, c, a) && Valid(a)
    ensures Lags(b, c, a)
  {
    forall k: nat
      ensures ServedLater(ServeMany(a, k).1, c, ServeMany(b, c + k).1)
    {
      BehindServes(b, c, a, k);
    }
  }

  lemma RepetitionsOnly(xs: seq<Served>, c: nat, ys: seq<Served>)
    requires AllRepeated(xs) && AllRepeated(ys) && |ys| == c + |xs|
    ensures ServedLater(xs, c, ys)
  {
    RepeatedAreEqual(xs, ys[c..]);
  }

  lemma NothingLeftLags(b: Reader, c: nat, a: Reader)
    requires Valid(a) && Valid(b) && Inputs(a) == [] && Inputs(b) == []
    ensures Lags(b, c, a)
  {
    forall k: nat
      ensures ServedLater(ServeMany(a, k).1, c, ServeMany(b, c + k).1)
    {
      NothingLeftRepeats(a, k);
      NothingLeftRepeats(b, c + k);
      RepetitionsOnly(ServeMany(a, k).1, c, ServeMany(b, c + k).1);
    }
  }

  /** A peer that downloads the host's state lags by as many calls as there are bytes of unknown type between
      its place, right behind the last input the host was served or sought, and the host's. */
  lemma PeerLagsByTheUnknownBytes(data: seq<byte>, steps: seq<HostStep>, peer: Reader, host: Reader, joined: Reader)
    requires JoinsAfter(data, steps, peer, host, joined)
    ensures Lags(joined, UnknownBytes(joined, host.ptr), host)
  {
    if Inputs(host) == [] {
      PeerIsLeftTheHostsInputs(data, steps, peer, host, joined);
      NothingLeftLags(joined, UnknownBytes(joined, host.ptr), host);
    } else {
      HostIsOk(data, steps);
      var c: nat :| LaggedBy(host, c);
      JoinedIsBehind(host, peer, joined, c);
      BehindByUnknownBytes(joined, c, host);
      BehindLags(joined, c, host);
    }
  }

  /** Host and peer are in step. */
  ghost predicate InStep(a: Reader, b: Reader) {
    Valid(a) && Valid(b) && forall k: nat :: ServeMany(a, k).1 == ServeMany(b, k).1
  }

  /** From then on the peer is served, call by call, what the host is served - the same recorded inputs,
      and repetitions at the same calls - if and only if no byte of unknown type lies between its place
      and the host's, or no input is left to either. */
  lemma PeerServesTheHostsRemainingInputs(data: seq<byte>, steps: seq<HostStep>, peer: Reader, host: Reader,
                                          joined: Reader)
    requires JoinsAfter(data, steps, peer, host, joined)
    ensures InStep(host, joined) <==> UnknownBytes(joined, host.ptr) == 0 || Inputs(host) == []
  {
    PeerIsLeftTheHostsInputs(data, steps, peer, host, joined);
    PeerLagsByTheUnknownBytes(data, steps, peer, host, joined);
    InStepUnlessItLags(host, joined, UnknownBytes(joined, host.ptr));
  }

  lemma InStepUnlessItLags(a: Reader, b: Reader, c: nat)
    requires Lags(b, c, a) && Inputs(a) == Inputs(b)
    ensures InStep(a, b) <==> c == 0 || Inputs(a) == []
  {
    if Inputs(a) == [] {
      NothingLeftInStep(a, b);
    } else if c == 0 {
      forall k: nat
        ensures ServeMany(a, k).1 == ServeMany(b, k).1
      {
        assert ServedLater(ServeMany(a, k).1, 0, ServeMany(b, 0 + k).1);
        assert ServeMany(b, 0 + k).1[0..] == ServeMany(b, k).1;
      }
    } else {
      var m := NextInputComes(a);
      OutOfStep(a, b, m, c);
    }
  }

  lemma NothingLeftInStep(a: Reader, b: Reader)
    requires Valid(a) && Valid(b) && Inputs(a) == [] && Inputs(b) == []
    ensures InStep(a, b)
  {
    forall k: nat
      ensures ServeMany(a, k).1 == ServeMany(b, k).1
    {
      NothingLeftRepeats(a, k);
      NothingLeftRepeats(b, k);
      RepeatedAreEqual(ServeMany(a, k).1, ServeMany(b, k).1);
    }
  }

  lemma RepeatedAreEqual(xs: seq<Served>, ys: seq<Served>)
    requires |xs| == |ys| && AllRepeated(xs) && AllRepeated(ys)
    ensures xs == ys
  {
  }

  /** The call that serves the host its next input only repeats a frame for whoever is behind. */
  lemma OutOfStep(a: Reader, b: Reader, m: nat, c: nat)
    requires Lags(b, c, a) && c > 0
    requires AllRepeated(ServeMany(a, m + 1).1[..m]) && ServeMany(a, m + 1).1[m].FromRecording?
    ensures !InStep(a, b)
  {
    var xs, ys := ServeMany(a, m + 1).1, ServeMany(b, c + (m + 1)).1;
    assert ServedLater(xs, c, ys);
    StillRepeats(xs, c, ys, m);
    ServeManyInParts(b, m + 1, c);
    assert ServeMany(b, m + 1).1[m] == ys[m];
    assert xs[m] != ServeMany(b, m + 1).1[m];
  }

  lemma StillRepeats(xs: seq<Served>, c: nat, ys: seq<Served>, m: nat)
    requires ServedLater(xs, c, ys) && c > 0 && m < |xs| && AllRepeated(xs[..m])
    ensures ys[m].Repeated?
  {
    if m < c {
      assert ys[m] == ys[..c][m];
    } else {
      assert ys[m] == ys[c..][m - c] == xs[m - c];
      assert xs[m - c] == xs[..m][m - c];
    }
  }

  /** A byte that begins no record costs the host one repetition; a peer that joins behind it still stands
      before that byte and repeats a frame there itself, so from then on it lags by one call. */
  lemma UnknownByteIsRepeatedByBoth(s: Reader, peer: Reader)
    requires JustServed(s) && !AtEnd(s) && s.buffer[s.ptr] !in [0x12, 0x14, 0x08]
    requires Valid(peer) && peer.buffer == s.buffer && peer.header == s.header
    ensures Serve(s).1.Repeated? && Serve(s).0.ptr == s.ptr + 1
    ensures var joined := Sought(peer, Serve(s).0.frames);
            joined.ptr == s.ptr && Serve(joined).1.Repeated?
  {
    var host := Serve(s).0;
    var joined := Sought(peer, host.frames);
    UnknownByteRepeats(s);
    ReadToAgrees(Rewound(s), Rewound(peer), host.frames, 0, 0);
    SamePlaceTrans(joined, ReadTo(Rewound(s), s.frames, 0), s);
    UnknownByteRepeats(joined);
  }

  lemma UnknownByteRepeats(s: Reader)
    requires Valid(s) && !AtEnd(s) && s.buffer[s.ptr] !in [0x12, 0x14, 0x08]
    ensures Serve(s) == (s.(ptr := s.ptr + 1), Repeated)
  {
  }
}
