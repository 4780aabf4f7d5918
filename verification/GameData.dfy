/** Game data as the Kaillera client receives it (kaillera_ProcessGameInstruction in
    kcore/kaillera_core.cpp): literal payloads are remembered, later ones may name a remembered one, and
    every payload is cut into the pieces that the emulator is served frame by frame. */
module GameData {
  import opened Bytes

  const CACHE_MAX := 0x100

  datatype Instruction = GameData(payload: seq<byte>) | GameCache(index: byte)

  datatype State = State(cache: seq<seq<byte>>, queue: seq<seq<byte>>)

  /** The last 256 literal payloads, oldest first. */
  function Remembered(cache: seq<seq<byte>>, payload: seq<byte>): seq<seq<byte>> {
    (if |cache| == CACHE_MAX then cache[1..] else cache) + [payload]
  }

  /** Pieces of `step` bytes from x on until length bytes are covered; mem is the payload and whatever
      bytes lie behind it in memory. */
  function PiecesFrom(mem: seq<byte>, x: nat, length: nat, step: nat): (ps: seq<seq<byte>>)
    requires step > 0 && length + step <= |mem| + 1
    ensures forall i :: 0 <= i < |ps| ==> |ps[i]| == step
    decreases length - x
  {
    if x >= length then [] else [mem[x..x + step]] + PiecesFrom(mem, x + step, length, step)
  }

  /** What a payload becomes; with a payload shorter than conset the code's loop would not end. */
  predicate Divisible(length: nat, conset: nat) {
    conset > 0 && (length == 0 || length >= conset)
  }

  function Pieces(payload: seq<byte>, beyond: seq<byte>, conset: nat): seq<seq<byte>>
    requires Divisible(|payload|, conset) && |beyond| >= |payload|
  {
    if payload == [] then []
    else (StepLaw(|payload|, conset); PiecesFrom(payload + beyond, 0, |payload|, |payload| / conset))
  }

  lemma StepLaw(length: nat, conset: nat)
    requires conset > 0 && length >= conset
    ensures 0 < length / conset <= length
  {
    var q := length / conset;
    assert length == conset * q + length % conset;
    assert q == 0 ==> conset * q == 0;
    ProductGrows(q, conset);
  }

  lemma {:induction false} ProductGrows(a: nat, b: nat)
    requires b >= 1
    ensures b * a >= a
    decreases b
  {
    if b > 1 {
      ProductGrows(a, b - 1);
      assert b * a == (b - 1) * a + a;
    }
  }

  function Processed(s: State, ki: Instruction, beyond: seq<byte>, conset: nat): State
    requires Fits(s, ki, beyond, conset)
  {
    match ki
    case GameData(payload) =>
      State(Remembered(s.cache, payload), s.queue + Pieces(payload, beyond, conset))
    case GameCache(index) =>
      s.(queue := s.queue + Pieces(s.cache[index], beyond, conset))
  }

  predicate Fits(s: State, ki: Instruction, beyond: seq<byte>, conset: nat) {
    match ki
    case GameData(payload) => Divisible(|payload|, conset) && |beyond| >= |payload|
    case GameCache(index) => index < |s.cache| && Divisible(|s.cache[index]|, conset) && |beyond| >= |s.cache[index]|
  }

  lemma PiecesNext(mem: seq<byte>, x: nat, length: nat, step: nat)
    requires step > 0 && length + step <= |mem| + 1 && x < length
    ensures var ps := PiecesFrom(mem, x, length, step);
            ps != [] && ps[0] == mem[x..x + step] && ps[1..] == PiecesFrom(mem, x + step, length, step)
  {
  }

  lemma MoveOver<T>(q: seq<T>, x: T, rest: seq<T>, all: seq<T>)
    requires all == [x] + rest
    ensures q + all == q + [x] + rest
  {
  }

  class GameQueue {
    var cache: seq<seq<byte>>
    var queue: seq<seq<byte>>
    var frameno: nat
    const conset: nat

    ghost function Value(): State
      reads this
    {
      State(cache, queue)
    }

    constructor (conset: nat)
      ensures Value() == State([], []) && frameno == 0 && this.conset == conset
    {
      cache, queue, frameno := [], [], 0;
      this.conset := conset;
    }

    method Cut(payload: seq<byte>, beyond: seq<byte>)
      requires Divisible(|payload|, conset) && |beyond| >= |payload|
      modifies this`queue
      ensures queue == old(queue) + Pieces(payload, beyond, conset)
    {
      var ilen := |payload| / conset;
      if payload == [] {
        return;
      }
      StepLaw(|payload|, conset);
      var mem := payload + beyond;
      var x: nat := 0;
      ghost var all := PiecesFrom(mem, 0, |payload|, ilen);
      ghost var left := all;
      while x < |payload|
        invariant left == PiecesFrom(mem, x, |payload|, ilen) && queue + left == old(queue) + all
        decreases |payload| - x
      {
        PiecesNext(mem, x, |payload|, ilen);
        MoveOver(queue, left[0], left[1..], left);
        queue := queue + [mem[x..x + ilen]];
        left := left[1..];
        x := x + ilen;
      }
    }

    method Process(ki: Instruction, beyond: seq<byte>)
      requires Fits(Value(), ki, beyond, conset)
      modifies this`cache, this`queue
      ensures Value() == Processed(old(Value()), ki, beyond, conset)
    {
      match ki
      case GameData(payload) =>
        if |cache| == CACHE_MAX {
          cache := cache[1..];
        }
        cache := cache + [payload];
        Cut(payload, beyond);
      case GameCache(index) =>
        Cut(cache[index], beyond);
    }

    /** The end of the live branch of kaillera_modify_play_values: the oldest piece is the next frame. */
    method Play() returns (values: Option<seq<byte>>)
      modifies this`queue, this`frameno
      ensures if old(queue) == [] then values == None && queue == [] && frameno == old(frameno)
              else values == Some(old(queue)[0]) && queue == old(queue)[1..] && frameno == old(frameno) + 1
    {
      values := None;
      if |queue| > 0 {
        values := Some(queue[0]);
        queue := queue[1..];
        frameno := frameno + 1;
      }
    }
  }

  // ----- the pieces are the payload -----

  /** Where the last piece ends. */
  function EndOf(x: nat, length: nat, step: nat): (e: nat)
    requires step > 0
    ensures x <= e && (x <= length ==> length <= e < length + step)
    decreases length - x
  {
    if x >= length then x else EndOf(x + step, length, step)
  }

  lemma {:induction false} PiecesCover(mem: seq<byte>, x: nat, length: nat, step: nat)
    requires step > 0 && length + step <= |mem| + 1 && x <= EndOf(x, length, step) <= |mem|
    ensures Flatten(PiecesFrom(mem, x, length, step)) == mem[x..EndOf(x, length, step)]
    decreases length - x
  {
    if x < length {
      PiecesCover(mem, x + step, length, step);
    }
  }

  lemma Remainder(n: nat, step: nat)
    requires step > 0
    ensures n >= step ==> (n - step) % step == n % step
    ensures 0 < n < step ==> n % step != 0
  {
    if n >= step {
      var q, r := n / step, n % step;
      assert n - step == step * (q - 1) + r;
      SmallRemainder(n - step, q - 1, r, step);
    } else if n > 0 {
      SmallRemainder(n, 0, n, step);
    }
  }

  lemma SmallRemainder(n: nat, q: nat, r: nat, step: nat)
    requires 0 <= r < step && n == step * q + r
    ensures n % step == r
  {
    var q', r' := n / step, n % step;
    assert n == step * q' + r';
    assert (q - q') * step == step * q - step * q';
    if q > q' {
      ProductGrows(step, q - q');
    } else if q < q' {
      assert (q' - q) * step == -((q - q') * step);
      ProductGrows(step, q' - q);
    }
  }

  lemma {:induction false} EndOfLaw(x: nat, length: nat, step: nat)
    requires step > 0 && x <= length
    ensures EndOf(x, length, step) == length <==> (length - x) % step == 0
    decreases length - x
  {
    if x < length {
      Remainder(length - x, step);
      if x + step <= length {
        EndOfLaw(x + step, length, step);
      }
    } else {
      SmallRemainder(0, 0, 0, step);
    }
  }

  /** The pieces of a payload put together are the payload if and only if the length of a piece, that of
      the payload divided by conset and rounded down, divides the payload's length; otherwise the last
      piece takes bytes from beyond the payload. */
  lemma PiecesAreThePayload(payload: seq<byte>, beyond: seq<byte>, conset: nat)
    requires Divisible(|payload|, conset) && |beyond| >= |payload|
    ensures Flatten(Pieces(payload, beyond, conset)) == payload <==>
              payload == [] || |payload| % (|payload| / conset) == 0
  {
    if payload != [] {
      var n := |payload|;
      StepLaw(n, conset);
      var step, mem := n / conset, payload + beyond;
      PiecesCover(mem, 0, n, step);
      EndOfLaw(0, n, step);
      assert EndOf(0, n, step) == n ==> mem[0..n] == payload;
    }
  }

  lemma {:induction false} PieceAt(mem: seq<byte>, x: nat, length: nat, step: nat, i: nat)
    requires step > 0 && length + step <= |mem| + 1 && i < |PiecesFrom(mem, x, length, step)|
    ensures 0 <= x + i * step < length && PiecesFrom(mem, x, length, step)[i] == mem[x + i * step..x + i * step + step]
    decreases i
  {
    if i > 0 {
      PiecesNext(mem, x, length, step);
      PieceAt(mem, x + step, length, step, i - 1);
      assert (i - 1) * step + step == i * step;
    } else {
      assert i * step == 0;
    }
  }

  lemma {:induction false} PieceCount(mem: seq<byte>, x: nat, length: nat, step: nat)
    requires step > 0 && length + step <= |mem| + 1
    ensures x + |PiecesFrom(mem, x, length, step)| * step >= length
    decreases length - x
  {
    if x < length {
      PiecesNext(mem, x, length, step);
      PieceCount(mem, x + step, length, step);
      var n := |PiecesFrom(mem, x, length, step)|;
      assert (n - 1) * step + step == n * step;
    }
  }

  /** Each piece is one frame, conset of which a payload is meant to hold: the i-th consists of the bytes from i
      times its length on, and there are just as many as cover the payload. */
  lemma PiecesAreFrames(payload: seq<byte>, beyond: seq<byte>, conset: nat, i: nat)
    requires Divisible(|payload|, conset) && |beyond| >= |payload| > 0
    ensures var ps, step := Pieces(payload, beyond, conset), |payload| / conset;
            && |ps| * step >= |payload|
            && (i < |ps| ==> i * step < |payload| && |ps[i]| == step)
            && (i < |ps| && (i + 1) * step <= |payload| ==> ps[i] == payload[i * step..(i + 1) * step])
  {
    StepLaw(|payload|, conset);
    var mem, step := payload + beyond, |payload| / conset;
    PieceCount(mem, 0, |payload|, step);
    if i < |Pieces(payload, beyond, conset)| {
      PieceAt(mem, 0, |payload|, step, i);
      assert (i + 1) * step == i * step + step;
    }
  }

  // ----- a whole game -----

  /** A sender that keeps the same list of literal payloads and sends, for each payload, either it or the
      index of an equal one in the list. */
  ghost predicate Sends(cache: seq<seq<byte>>, payloads: seq<seq<byte>>, kis: seq<Instruction>)
    decreases |kis|
  {
    |payloads| == |kis| &&
    (kis != [] ==>
       match kis[0]
       case GameData(payload) => payload == payloads[0] && Sends(Remembered(cache, payload), payloads[1..], kis[1..])
       case GameCache(index) => index < |cache| && cache[index] == payloads[0] && Sends(cache, payloads[1..], kis[1..]))
  }

  /** Payloads of whole frames. */
  ghost predicate Even(payloads: seq<seq<byte>>, beyond: seq<byte>, conset: nat) {
    forall i :: 0 <= i < |payloads| ==>
      && Divisible(|payloads[i]|, conset) && |beyond| >= |payloads[i]|
      && (payloads[i] == [] || |payloads[i]| % (|payloads[i]| / conset) == 0)
  }

  function ProcessAll(s: State, kis: seq<Instruction>, beyond: seq<byte>, conset: nat): (r: Option<State>)
    decreases |kis|
  {
    if kis == [] then Some(s)
    else if !Fits(s, kis[0], beyond, conset) then None
    else ProcessAll(Processed(s, kis[0], beyond, conset), kis[1..], beyond, conset)
  }

  /** Whatever mixture of literals and indices the sender chooses, the pieces queued for the emulator put
      together are the payloads put together, across any number of turns of the list. */
  lemma {:induction false} CachingIsLossless(s: State, payloads: seq<seq<byte>>, kis: seq<Instruction>,
                                             beyond: seq<byte>, conset: nat)
    requires Sends(s.cache, payloads, kis) && Even(payloads, beyond, conset)
    ensures ProcessAll(s, kis, beyond, conset).Some?
    ensures Flatten(ProcessAll(s, kis, beyond, conset).value.queue) == Flatten(s.queue) + Flatten(payloads)
    decreases |kis|
  {
    if kis != [] {
      var p := payloads[0];
      PiecesAreThePayload(p, beyond, conset);
      FlattenConcat(s.queue, Pieces(p, beyond, conset));
      EvenRest(payloads, beyond, conset);
      CachingIsLossless(Processed(s, kis[0], beyond, conset), payloads[1..], kis[1..], beyond, conset);
      Regrouped(Flatten(s.queue), p, Flatten(payloads[1..]));
    }
  }

  lemma EvenRest(payloads: seq<seq<byte>>, beyond: seq<byte>, conset: nat)
    requires Even(payloads, beyond, conset) && payloads != []
    ensures Even(payloads[1..], beyond, conset)
  {
  }
}
