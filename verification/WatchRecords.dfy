/** The records of a replay stream as the spectator's player consumes them (player.cpp), read off a
    byte sequence without any buffering. */
module WatchRecords {
  import opened Bytes

  const NICK_CAP := 100
  const TEXT_CAP := 500
  const SAFETY_MARGIN := 700

  /** What stands at a position: a record and its whole length, a byte of no known type (skipped alone),
      or a record that the end of the bytes cuts off. */
  datatype Record = Input(length: nat) | Drop(length: nat) | Chat(length: nat) | Unknown | Cut

  function Width(r: Record): nat {
    match r
    case Input(n) => n
    case Drop(n) => n
    case Chat(n) => n
    case Unknown => 1
    case Cut => 0
  }

  /** Bytes a C string of at most cap bytes takes up at p, its NUL included (WatchCStrLength); None if
      the bytes end first. */
  function CStr(s: seq<byte>, p: nat, cap: nat): (r: Option<nat>)
    ensures r.Some? ==> r.value <= cap && p + r.value <= |s| + (if cap == 0 then p else 0) && (cap > 0 ==> r.value > 0)
    decreases |s| - p
  {
    if cap == 0 then Some(0)
    else if p >= |s| then None
    else if s[p] == 0 then Some(1)
    else
      var rest := CStr(s, p + 1, cap - 1);
      if rest.None? then None else Some(1 + rest.value)
  }

  /** The nick and player number of a drop record, and the nick and text of a chat record. */
  function DropBody(s: seq<byte>, p: nat): (r: Option<nat>)
    ensures r.Some? ==> p + r.value <= |s|
  {
    var nick := CStr(s, p, NICK_CAP);
    if nick.None? || |s| - (p + nick.value) < 4 then None else Some(nick.value + 4)
  }

  function ChatBody(s: seq<byte>, p: nat): (r: Option<nat>)
    ensures r.Some? ==> p + r.value <= |s|
  {
    var nick := CStr(s, p, NICK_CAP);
    if nick.None? then None
    else
      var text := CStr(s, p + nick.value, TEXT_CAP);
      if text.None? then None else Some(nick.value + text.value)
  }

  function RecordAt(s: seq<byte>, p: nat): (r: Record)
    ensures p + Width(r) <= |s| || r.Cut?
    ensures !r.Cut? ==> Width(r) > 0
  {
    if p >= |s| then Cut
    else if s[p] == 0x12 then
      if |s| - p < 3 then Cut
      else
        var l := FromLe16(s[p + 1..p + 3]);
        if |s| - p < 3 + l then Cut else Input(3 + l)
    else if s[p] == 0x14 then
      var n := DropBody(s, p + 1);
      if n.None? then Cut else Drop(1 + n.value)
    else if s[p] == 0x08 then
      var n := ChatBody(s, p + 1);
      if n.None? then Cut else Chat(1 + n.value)
    else Unknown
  }

  function Payload(s: seq<byte>, p: nat): seq<byte>
    requires RecordAt(s, p).Input?
  {
    s[p + 3..p + RecordAt(s, p).length]
  }

  function Inputs(r: Record): nat {
    if r.Input? then 1 else 0
  }

  /** A position in the stream with the number of the next frame there. */
  datatype Place = Place(pos: nat, frame: int)

  ghost predicate Link(s: seq<byte>, a: Place, b: Place) {
    var r := RecordAt(s, a.pos);
    !r.Cut? && b == Place(a.pos + Width(r), a.frame + Inputs(r))
  }

  ghost predicate IsChain(s: seq<byte>, c: seq<Place>) {
    c != [] && forall i, j :: 0 <= i < j < |c| && j == i + 1 ==> Link(s, c[i], c[j])
  }

  ghost predicate ChainFromTo(s: seq<byte>, c: seq<Place>, p0: nat, f0: int, p: nat, f: int) {
    IsChain(s, c) && c[0] == Place(p0, f0) && c[|c| - 1] == Place(p, f)
  }

  /** Reading whole records from p0 on, p is reached with exactly f - f0 input records passed. */
  ghost predicate Boundary(s: seq<byte>, p0: nat, f0: int, p: nat, f: int) {
    exists c :: ChainFromTo(s, c, p0, f0, p, f)
  }

  /** The payload of the n-th input record from p on, counting from 0. */
  function NthInput(s: seq<byte>, p: nat, n: nat): Option<seq<byte>>
    decreases |s| - p
  {
    var r := RecordAt(s, p);
    if r.Cut? then None
    else if r.Input? && n == 0 then Some(Payload(s, p))
    else NthInput(s, p + Width(r), if r.Input? then n - 1 else n)
  }

  ghost predicate IsNthInput(s: seq<byte>, p: nat, n: nat, payload: seq<byte>) {
    NthInput(s, p, n) == Some(payload)
  }

  /** What one call of player_MPV comes to at p, if all of s were buffered: skip drops and chats, then
      serve an input, end, or stumble over an unknown byte. A chat or drop near the end of s ends the
      playback, because 700 bytes are demanded behind its type byte. */
  datatype Outcome = Served(payload: seq<byte>, next: nat) | Over(at: nat) | Bad(next: nat)

  function OutcomeAt(s: seq<byte>, p: nat): (o: Outcome)
    requires p <= |s|
    ensures o.Served? ==> o.next <= |s|
    ensures o.Bad? ==> o.next <= |s|
    ensures o.Over? ==> o.at <= |s|
    decreases |s| - p
  {
    if |s| - p < 3 then Over(p)
    else
      var r := RecordAt(s, p);
      if s[p] == 0x12 then (if r.Cut? then Over(p) else Served(Payload(s, p), p + r.length))
      else if s[p] == 0x14 || s[p] == 0x08 then
        if |s| - (p + 1) < SAFETY_MARGIN || r.Cut? then Over(p) else OutcomeAt(s, p + Width(r))
      else Bad(p + 1)
  }

  // ----- facts about positions -----

  lemma BoundaryItself(s: seq<byte>, p: nat, f: int)
    ensures Boundary(s, p, f, p, f)
  {
    assert ChainFromTo(s, [Place(p, f)], p, f, p, f);
  }

  lemma BoundaryExtends(s: seq<byte>, p0: nat, f0: int, p: nat, f: int)
    requires Boundary(s, p0, f0, p, f) && !RecordAt(s, p).Cut?
    ensures Boundary(s, p0, f0, p + Width(RecordAt(s, p)), f + Inputs(RecordAt(s, p)))
  {
    var c :| ChainFromTo(s, c, p0, f0, p, f);
    var next := Place(p + Width(RecordAt(s, p)), f + Inputs(RecordAt(s, p)));
    var c' := c + [next];
    forall i, j | 0 <= i < j < |c'| && j == i + 1
      ensures Link(s, c'[i], c'[j])
    {
      if j < |c| {
        assert Link(s, c[i], c[j]);
      }
    }
    assert ChainFromTo(s, c', p0, f0, next.pos, next.frame);
  }

  /** Unless p is already there, the first record leads on towards the boundary. */
  lemma BoundarySteps(s: seq<byte>, p0: nat, f0: int, p: nat, f: int)
    requires Boundary(s, p0, f0, p, f) && !(p0 == p && f0 == f)
    ensures var r := RecordAt(s, p0);
            && !r.Cut? && p0 + Width(r) <= p && f0 + Inputs(r) <= f
            && Boundary(s, p0 + Width(r), f0 + Inputs(r), p, f)
  {
    var c :| ChainFromTo(s, c, p0, f0, p, f);
    assert Link(s, c[0], c[1]);
    ChainRises(s, c, 1, |c| - 1);
    var e := c[1..];
    forall i, j | 0 <= i < j < |e| && j == i + 1
      ensures Link(s, e[i], e[j])
    {
      assert Link(s, c[1 + i], c[1 + j]);
    }
    var r := RecordAt(s, p0);
    assert ChainFromTo(s, e, p0 + Width(r), f0 + Inputs(r), p, f);
  }

  lemma {:induction false} ChainRises(s: seq<byte>, c: seq<Place>, i: nat, j: nat)
    requires IsChain(s, c) && i <= j < |c|
    ensures c[i].pos <= c[j].pos && c[i].frame <= c[j].frame && (i < j ==> c[i].pos < c[j].pos)
    decreases j
  {
    if i < j {
      ChainRises(s, c, i, j - 1);
      assert Link(s, c[j - 1], c[j]);
    }
  }

  lemma {:induction false} ChainsAgree(s: seq<byte>, c: seq<Place>, d: seq<Place>, i: nat)
    requires IsChain(s, c) && IsChain(s, d) && c[0] == d[0] && i < |c| && i < |d|
    ensures c[i] == d[i]
  {
    if i > 0 {
      ChainsAgree(s, c, d, i - 1);
      assert Link(s, c[i - 1], c[i]) && Link(s, d[i - 1], d[i]);
    }
  }

  lemma BoundaryPrepends(s: seq<byte>, a: Place, b: Place, q: nat, g: int)
    requires Link(s, a, b) && Boundary(s, b.pos, b.frame, q, g)
    ensures Boundary(s, a.pos, a.frame, q, g)
  {
    var c :| ChainFromTo(s, c, b.pos, b.frame, q, g);
    var c' := [a] + c;
    forall i, j | 0 <= i < j < |c'| && j == i + 1
      ensures Link(s, c'[i], c'[j])
    {
      if i > 0 {
        assert Link(s, c[i - 1], c[j - 1]);
      }
    }
    assert ChainFromTo(s, c', a.pos, a.frame, q, g);
  }

  /** Of two boundaries of the same reading, the one with fewer inputs before it comes first and the
      other continues from it. */
  lemma BoundariesAreOnOneChain(s: seq<byte>, p0: nat, f0: int, p: nat, f: int, q: nat, g: int)
    requires Boundary(s, p0, f0, p, f) && Boundary(s, p0, f0, q, g) && f < g
    ensures Boundary(s, p, f, q, g) && p < q
  {
    var c :| ChainFromTo(s, c, p0, f0, p, f);
    var d :| ChainFromTo(s, d, p0, f0, q, g);
    var m, n := |c| - 1, |d| - 1;
    if m > n {
      ChainsAgree(s, c, d, n);
      ChainRises(s, c, n, m);
      assert false;
    }
    ChainsAgree(s, c, d, m);
    ChainRises(s, d, m, n);
    var e := d[m..];
    forall i, j | 0 <= i < j < |e| && j == i + 1
      ensures Link(s, e[i], e[j])
    {
      assert Link(s, d[m + i], d[m + j]);
    }
    assert ChainFromTo(s, e, p, f, q, g);
  }

  /** Counted from a, the m-th input is the n-th counted from b. */
  ghost predicate SameNth(s: seq<byte>, a: Place, m: nat, b: Place, n: nat) {
    NthInput(s, a.pos, m) == NthInput(s, b.pos, n)
  }

  lemma SameNthTrans(s: seq<byte>, a: Place, m: nat, b: Place, n: nat, c: Place, k: nat)
    requires SameNth(s, a, m, b, n) && SameNth(s, b, n, c, k)
    ensures SameNth(s, a, m, c, k)
  {
  }

  lemma NthInputPast(s: seq<byte>, a: Place, b: Place, m: nat)
    requires Link(s, a, b)
    ensures b.frame >= a.frame && SameNth(s, a, m + (b.frame - a.frame), b, m)
  {
  }

  /** The m-th input from the i-th place of a chain on, counted from the start of the chain. */
  lemma {:induction false} NthInputAlongChain(s: seq<byte>, c: seq<Place>, i: nat, m: nat)
    requires IsChain(s, c) && i < |c|
    ensures c[i].frame >= c[0].frame && SameNth(s, c[0], m + (c[i].frame - c[0].frame), c[i], m)
    decreases i
  {
    if i > 0 {
      var a, b := c[i - 1], c[i];
      assert Link(s, a, b);
      NthInputPast(s, a, b, m);
      var n := m + (b.frame - a.frame);
      NthInputAlongChain(s, c, i - 1, n);
      SameNthTrans(s, c[0], m + (b.frame - c[0].frame), a, n, b, m);
    }
  }

  /** At a boundary with f - f0 inputs before it, the next input record is the (f - f0)-th. */
  lemma NextInputIsNth(s: seq<byte>, p0: nat, f0: int, p: nat, f: int)
    requires Boundary(s, p0, f0, p, f) && RecordAt(s, p).Input?
    ensures f >= f0 && NthInput(s, p0, f - f0) == Some(Payload(s, p))
  {
    var c :| ChainFromTo(s, c, p0, f0, p, f);
    NthInputAlongChain(s, c, |c| - 1, 0);
  }

  /** A call that serves an input serves the right one, and leaves a boundary with one more before it. */
  lemma {:induction false} ServedIsNth(s: seq<byte>, p0: nat, f0: int, p: nat, f: int)
    requires p <= |s| && Boundary(s, p0, f0, p, f)
    ensures match OutcomeAt(s, p)
            case Served(payload, next) =>
              f >= f0 && NthInput(s, p0, f - f0) == Some(payload) && Boundary(s, p0, f0, next, f + 1)
            case Bad(next) => Boundary(s, p0, f0, next, f)
            case Over(at) => Boundary(s, p0, f0, at, f)
    decreases |s| - p
  {
    if |s| - p >= 3 {
      var r := RecordAt(s, p);
      if !r.Cut? {
        BoundaryExtends(s, p0, f0, p, f);
        if r.Input? {
          NextInputIsNth(s, p0, f0, p, f);
        } else if !r.Unknown? && |s| - (p + 1) >= SAFETY_MARGIN {
          ServedIsNth(s, p0, f0, p + Width(r), f);
        }
      }
    }
  }

  lemma OutcomeIsNth(s: seq<byte>, p0: nat, f0: int, p: nat, f: int, out: Outcome, payload: seq<byte>)
    requires p <= |s| && Boundary(s, p0, f0, p, f) && out == OutcomeAt(s, p) && out.Served? && out.payload == payload
    ensures f >= f0 && IsNthInput(s, p0, f - f0, payload)
  {
    ServedIsNth(s, p0, f0, p, f);
  }

  /** From p on, the next input stands at q, with the payload. */
  ghost predicate NextInputAt(s: seq<byte>, p: nat, q: nat, payload: seq<byte>) {
    p <= q && Boundary(s, p, 0, q, 0) && RecordAt(s, q).Input? && Payload(s, q) == payload
  }

  lemma {:induction false} NextInputStands(s: seq<byte>, p: nat, payload: seq<byte>) returns (q: nat)
    requires IsNthInput(s, p, 0, payload)
    ensures NextInputAt(s, p, q, payload)
    decreases |s| - p
  {
    var r := RecordAt(s, p);
    if r.Input? {
      q := p;
      BoundaryItself(s, p, 0);
    } else {
      q := NextInputStands(s, p + Width(r), payload);
      BoundaryPrepends(s, Place(p, 0), Place(p + Width(r), 0), q, 0);
    }
  }

  /** Behind a boundary with m inputs before it, the inputs are counted on from m. */
  lemma NthInputFromBoundary(s: seq<byte>, p0: nat, f0: int, p: nat, f: int, payload: seq<byte>)
    requires Boundary(s, p0, f0, p, f)
    ensures f >= f0 && (IsNthInput(s, p0, f - f0, payload) <==> IsNthInput(s, p, 0, payload))
  {
    var c :| ChainFromTo(s, c, p0, f0, p, f);
    NthInputAlongChain(s, c, |c| - 1, 0);
  }

  /** At a boundary with f - f0 inputs before it, the (f - f0)-th input is the next one. */
  lemma NextInputBehind(s: seq<byte>, p0: nat, f0: int, p: nat, f: int, payload: seq<byte>) returns (q: nat)
    requires Boundary(s, p0, f0, p, f) && f >= f0 && IsNthInput(s, p0, f - f0, payload)
    ensures NextInputAt(s, p, q, payload)
  {
    NthInputFromBoundary(s, p0, f0, p, f, payload);
    q := NextInputStands(s, p, payload);
  }

  // ----- parsing a stretch of the stream -----

  /** a is the stretch of s that begins at off. */
  ghost predicate StretchOf(a: seq<byte>, s: seq<byte>, off: nat) {
    off + |a| <= |s| && forall i :: 0 <= i < |a| ==> a[i] == s[off + i]
  }

  lemma {:induction false} CStrInStretch(a: seq<byte>, s: seq<byte>, off: nat, p: nat, cap: nat)
    requires StretchOf(a, s, off) && p <= |a|
    ensures CStr(a, p, cap).Some? ==> CStr(s, off + p, cap) == CStr(a, p, cap)
    ensures CStr(s, off + p, cap).Some? && p + CStr(s, off + p, cap).value <= |a| ==>
              CStr(a, p, cap) == CStr(s, off + p, cap)
    ensures p + cap <= |a| ==> CStr(a, p, cap).Some?
    decreases cap
  {
    if cap == 0 {
    } else if p < |a| {
      assert a[p] == s[off + p];
      if a[p] != 0 {
        CStrInStretch(a, s, off, p + 1, cap - 1);
      }
    }
  }

  lemma SliceInStretch(a: seq<byte>, s: seq<byte>, off: nat, i: nat, j: nat)
    requires StretchOf(a, s, off) && i <= j <= |a|
    ensures s[off + i..off + j] == a[i..j]
  {
  }

  lemma BodiesInStretch(a: seq<byte>, s: seq<byte>, off: nat, p: nat)
    requires StretchOf(a, s, off) && p <= |a|
    ensures DropBody(a, p).Some? ==> DropBody(s, off + p) == DropBody(a, p)
    ensures ChatBody(a, p).Some? ==> ChatBody(s, off + p) == ChatBody(a, p)
    ensures DropBody(s, off + p).Some? && p + DropBody(s, off + p).value <= |a| ==>
              DropBody(a, p) == DropBody(s, off + p)
    ensures ChatBody(s, off + p).Some? && p + ChatBody(s, off + p).value <= |a| ==>
              ChatBody(a, p) == ChatBody(s, off + p)
  {
    CStrInStretch(a, s, off, p, NICK_CAP);
    var nick := CStr(s, off + p, NICK_CAP);
    if nick.Some? && p + nick.value <= |a| {
      CStrInStretch(a, s, off, p + nick.value, TEXT_CAP);
    }
  }

  /** A record that is complete in a stretch is the record of the whole stream, and conversely. */
  lemma RecordInStretch(a: seq<byte>, s: seq<byte>, off: nat, p: nat)
    requires StretchOf(a, s, off) && p <= |a|
    ensures !RecordAt(a, p).Cut? ==> RecordAt(s, off + p) == RecordAt(a, p)
    ensures !RecordAt(s, off + p).Cut? && p + Width(RecordAt(s, off + p)) <= |a| ==>
              RecordAt(a, p) == RecordAt(s, off + p)
  {
    if p < |a| {
      assert a[p] == s[off + p];
      if a[p] == 0x12 {
        if |a| - p >= 3 {
          SliceInStretch(a, s, off, p + 1, p + 3);
        }
      } else if a[p] == 0x14 || a[p] == 0x08 {
        BodiesInStretch(a, s, off, p + 1);
      }
    }
  }

  /** strlen-based reading consumes the same bytes as long as cap bytes are there. */
  lemma {:induction false} CStrIsStrlen(s: seq<byte>, p: nat, cap: nat)
    requires p + cap <= |s|
    ensures CStr(s, p, cap) == Some(Min(cap, NulAt(s, p) - p + 1))
    decreases cap
  {
    if cap > 0 && s[p] != 0 {
      CStrIsStrlen(s, p + 1, cap - 1);
    }
  }

  /** From p to q the stream holds only what a rewind can walk over: no unknown bytes, and no input of
      32768 bytes or more. */
  ghost predicate Plain(s: seq<byte>, p: nat, q: nat)
    decreases |s| - p
  {
    p < q ==>
      var r := RecordAt(s, p);
      !r.Cut? && !r.Unknown? && (r.Input? ==> r.length - 3 < 0x8000) && Plain(s, p + Width(r), q)
  }

  /** What lies between is plain as well. */
  lemma {:induction false} PlainBefore(s: seq<byte>, p: nat, q: nat, q': nat)
    requires Plain(s, p, q) && q' <= q
    ensures Plain(s, p, q')
    decreases |s| - p
  {
    if p < q' {
      PlainBefore(s, p + Width(RecordAt(s, p)), q, q');
    }
  }

  lemma {:induction false} PlainBehind(s: seq<byte>, p: nat, f: int, p': nat, f': int, q: nat)
    requires Plain(s, p, q) && p' <= q && Boundary(s, p, f, p', f')
    ensures Plain(s, p', q)
    decreases |s| - p
  {
    if !(p == p' && f == f') {
      BoundarySteps(s, p, f, p', f');
      PlainBehind(s, p + Width(RecordAt(s, p)), f + Inputs(RecordAt(s, p)), p', f', q);
    }
  }

  /** From p to q lies one whole record, and it is not an input. */
  ghost predicate TextBetween(s: seq<byte>, p: nat, q: nat) {
    !RecordAt(s, p).Cut? && !RecordAt(s, p).Input? && q == p + Width(RecordAt(s, p))
  }

  /** With 700 bytes past the type byte, a drop or chat record is complete, and reading its strings off
      the stretch finds its end: n bytes of nick and m bytes of number or text. */
  lemma TextRecordInStretch(a: seq<byte>, s: seq<byte>, off: nat, p: nat, n: nat, m: nat, from: nat, to: nat)
    requires StretchOf(a, s, off) && p + SAFETY_MARGIN <= |a| && CStr(a, p, NICK_CAP) == Some(n)
    requires from + 1 == off + p && to == off + p + n + m && (s[from] == 0x14 || s[from] == 0x08)
    requires if s[from] == 0x14 then m == 4 else CStr(a, p + n, TEXT_CAP) == Some(m)
    ensures TextBetween(s, from, to)
  {
    CStrInStretch(a, s, off, p, NICK_CAP);
    CStrInStretch(a, s, off, p + n, TEXT_CAP);
    TextRecordOfStrings(s, from, off + p, n, m, to);
  }

  lemma TextRecordOfStrings(s: seq<byte>, from: nat, p: nat, n: nat, m: nat, to: nat)
    requires p == from + 1 && to == p + n + m <= |s| && (s[from] == 0x14 || s[from] == 0x08)
    requires CStr(s, p, NICK_CAP) == Some(n) && if s[from] == 0x14 then m == 4 else CStr(s, p + n, TEXT_CAP) == Some(m)
    ensures TextBetween(s, from, to)
  {
  }

  lemma OutcomeSkipsText(s: seq<byte>, p: nat)
    requires p < |s| && (s[p] == 0x14 || s[p] == 0x08)
    ensures |s| - (p + 1) < SAFETY_MARGIN ==> OutcomeAt(s, p) == Over(p)
    ensures |s| - (p + 1) >= SAFETY_MARGIN && !RecordAt(s, p).Cut? ==>
              OutcomeAt(s, p) == OutcomeAt(s, p + Width(RecordAt(s, p)))
  {
  }

  lemma OutcomeOtherwise(s: seq<byte>, p: nat)
    requires p <= |s|
    ensures |s| - p < 3 ==> OutcomeAt(s, p) == Over(p)
    ensures |s| - p >= 3 && s[p] == 0x12 ==>
              OutcomeAt(s, p) ==
              if RecordAt(s, p).Input? then Served(Payload(s, p), p + RecordAt(s, p).length) else Over(p)
    ensures |s| - p >= 3 && s[p] != 0x12 && s[p] != 0x14 && s[p] != 0x08 ==>
              OutcomeAt(s, p) == Bad(p + 1) && RecordAt(s, p) == Unknown
  {
  }

  /** Every chat and drop between p and q has 700 bytes of the stream behind its type byte. */
  ghost predicate TextsHaveMargin(s: seq<byte>, p: nat, q: nat)
    decreases |s| - p
  {
    p < q ==>
      var r := RecordAt(s, p);
      && !r.Cut?
      && (r.Drop? || r.Chat? ==> |s| - (p + 1) >= SAFETY_MARGIN)
      && TextsHaveMargin(s, p + Width(r), q)
  }

  /** The next input is served if and only if no byte of unknown type stands before it and no chat or drop
      before it has fewer than 700 bytes behind its type byte; one that has ends the playback. */
  lemma {:induction false} InputIsServedUpToTheMargin(s: seq<byte>, p: nat, q: nat, f: int)
    requires p <= q && Boundary(s, p, f, q, f) && RecordAt(s, q).Input?
    ensures OutcomeAt(s, p) == Served(Payload(s, q), q + RecordAt(s, q).length) <==>
              Plain(s, p, q) && TextsHaveMargin(s, p, q)
    ensures Plain(s, p, q) && !TextsHaveMargin(s, p, q) ==> OutcomeAt(s, p).Over?
    decreases q - p
  {
    if p < q {
      BoundarySteps(s, p, f, q, f);
      var r := RecordAt(s, p);
      if r.Unknown? {
        assert !OutcomeAt(s, p).Served?;
      } else {
        OutcomeSkipsText(s, p);
        InputIsServedUpToTheMargin(s, p + Width(r), q, f);
      }
    }
  }

  /** How a call ends that has only plain records between it and the next input. */
  ghost predicate ServedIfMargin(s: seq<byte>, p: nat, q: nat, payload: seq<byte>, out: Outcome) {
    && RecordAt(s, q).Input?
    && (out == Served(payload, q + RecordAt(s, q).length) <==> TextsHaveMargin(s, p, q))
    && (!TextsHaveMargin(s, p, q) ==> out.Over?)
  }

  /** There is a next input, with the payload, and only plain records before it. */
  ghost predicate PlainInputAhead(s: seq<byte>, p: nat, payload: seq<byte>) {
    exists q :: NextInputAt(s, p, q, payload) && Plain(s, p, q)
  }

  /** The next input from p on has this payload, and the call comes to it or, for want of margin behind a
      chat or drop before it, to the end. */
  ghost predicate ServedUpToTheMargin(s: seq<byte>, p: nat, payload: seq<byte>, out: Outcome) {
    exists q :: NextInputAt(s, p, q, payload) && ServedIfMargin(s, p, q, payload, out)
  }

  lemma PlainInputIsServed(s: seq<byte>, p: nat, payload: seq<byte>, out: Outcome)
    requires PlainInputAhead(s, p, payload) && p <= |s| && out == OutcomeAt(s, p)
    ensures ServedUpToTheMargin(s, p, payload, out)
  {
    var q :| NextInputAt(s, p, q, payload) && Plain(s, p, q);
    InputIsServedUpToTheMargin(s, p, q, 0);
    assert ServedIfMargin(s, p, q, payload, out);
  }

  /** An input whose record starts 700 bytes or more before the end of the stream has that margin. */
  lemma {:induction false} MarginBefore(s: seq<byte>, p: nat, q: nat, f: int)
    requires p <= q && Boundary(s, p, f, q, f) && |s| - q >= SAFETY_MARGIN
    ensures TextsHaveMargin(s, p, q)
    decreases q - p
  {
    if p < q {
      BoundarySteps(s, p, f, q, f);
      MarginBefore(s, p + Width(RecordAt(s, p)), q, f);
    }
  }
}
