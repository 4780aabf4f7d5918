/** The table-driven CRC-32 of the updater (Crc32 in common/n02_update.cpp) against the register of
    section 8 of RFC 1952, fed one bit at a time, and what the check is good for. A 32-bit word is its
    bits, the lowest first. */
module Crc32 {
  import opened Bytes

  type Word = w: seq<bool> | |w| == 32 witness seq(32, _ => false)

  function Zeros(n: nat): (z: seq<bool>)
    ensures |z| == n && forall i :: 0 <= i < n ==> !z[i]
  {
    seq(n, _ => false)
  }

  function Ones(): (w: Word)
    ensures forall i :: 0 <= i < 32 ==> w[i]
  {
    seq(32, _ => true)
  }

  function Xor(a: Word, b: Word): (w: Word)
    ensures forall i :: 0 <= i < 32 ==> w[i] == (a[i] != b[i])
  {
    seq(32, i requires 0 <= i < 32 => a[i] != b[i])
  }

  /** The exponents of the CRC polynomial below 32, as section 8 of RFC 1952 lists them; in the register
      they stand in reverse. */
  function Poly(): (w: Word)
    ensures forall i :: 0 <= i < 32 ==> w[i] == (31 - i in {0, 1, 2, 4, 5, 7, 8, 10, 11, 12, 16, 22, 23, 26})
  {
    seq(32, i => 31 - i in {0, 1, 2, 4, 5, 7, 8, 10, 11, 12, 16, 22, 23, 26})
  }

  // ----- numbers and bits -----

  function Bits(n: nat, k: nat): (b: seq<bool>)
    ensures |b| == k
  {
    if k == 0 then [] else [n % 2 == 1] + Bits(n / 2, k - 1)
  }

  function Num(b: seq<bool>): (n: nat)
    decreases |b|
  {
    if b == [] then 0 else (if b[0] then 1 else 0) + 2 * Num(b[1..])
  }

  lemma {:induction false} BitsOfNum(b: seq<bool>)
    ensures Bits(Num(b), |b|) == b
    decreases |b|
  {
    if b != [] {
      BitsOfNum(b[1..]);
      assert Num(b) / 2 == Num(b[1..]);
    }
  }

  function Power2(k: nat): (n: nat)
    ensures n > 0
  {
    if k == 0 then 1 else 2 * Power2(k - 1)
  }

  lemma {:induction false} NumOfBits(n: nat, k: nat)
    requires n < Power2(k)
    ensures Num(Bits(n, k)) == n
  {
    if k > 0 {
      NumOfBits(n / 2, k - 1);
    }
  }

  lemma {:induction false} NumIsSmall(b: seq<bool>)
    ensures Num(b) < Power2(|b|)
    decreases |b|
  {
    if b != [] {
      NumIsSmall(b[1..]);
    }
  }

  lemma NumOfByte(b: seq<bool>)
    requires |b| == 8
    ensures Num(b) < 0x100
  {
    NumIsSmall(b);
    assert Power2(4) == 16 && Power2(8) == 0x100;
  }

  function Value(b: bool): nat {
    if b then 1 else 0
  }

  lemma NextNum(b: seq<bool>, k: nat)
    requires k < |b|
    ensures Num(b[k..]) == Value(b[k]) + 2 * Num(b[k + 1..])
  {
    assert b[k..][1..] == b[k + 1..];
  }

  lemma NextNibble(b: seq<bool>, k: nat, n: nat)
    requires k + 4 <= |b| && n == Value(b[k]) + 2 * Value(b[k + 1]) + 4 * Value(b[k + 2]) + 8 * Value(b[k + 3])
    ensures Num(b[k..]) == n + 0x10 * Num(b[k + 4..])
  {
    NextNum(b, k);
    NextNum(b, k + 1);
    NextNum(b, k + 2);
    NextNum(b, k + 3);
  }

  function PolyNibble(k: nat): nat
    requires k % 4 == 0 && k < 32
  {
    match k
    case 0 => 0x0 case 4 => 0x2 case 8 => 0x3 case 12 => 0x8
    case 16 => 0x8 case 20 => 0xB case 24 => 0xD case _ => 0xE
  }

  lemma PolyNibbleIs(k: nat)
    requires k % 4 == 0 && k < 32
    ensures Num(Poly()[k..]) == PolyNibble(k) + 0x10 * Num(Poly()[k + 4..])
  {
    var p := Poly();
    assert Value(p[k]) + 2 * Value(p[k + 1]) + 4 * Value(p[k + 2]) + 8 * Value(p[k + 3]) == PolyNibble(k);
    NextNibble(p, k, PolyNibble(k));
  }

  lemma PolyHigh()
    ensures Num(Poly()[16..]) == 0xEDB8
  {
    assert Num([]) == 0 && Poly()[32..] == [];
    PolyNibbleIs(28);
    assert Num(Poly()[28..]) == 0xE;
    PolyNibbleIs(24);
    assert Num(Poly()[24..]) == 0xED;
    PolyNibbleIs(20);
    PolyNibbleIs(16);
  }

  lemma PolyLow()
    ensures Num(Poly()[0..]) == 0x8320 + 0x1_0000 * Num(Poly()[16..])
  {
    PolyNibbleIs(12);
    PolyNibbleIs(8);
    PolyNibbleIs(4);
    PolyNibbleIs(0);
  }

  /** The polynomial is the number the code names. */
  lemma PolyIsTheConstant()
    ensures Num(Poly()) == 0xEDB8_8320
  {
    PolyHigh();
    PolyLow();
    assert Poly()[0..] == Poly();
  }

  /** The bits of a message, the lowest of each byte first. */
  function BitsOf(data: seq<byte>): (b: seq<bool>)
    ensures |b| == 8 * |data|
  {
    if data == [] then [] else Bits(data[0], 8) + BitsOf(data[1..])
  }

  lemma {:induction false} BitsOfConcat(a: seq<byte>, b: seq<byte>)
    ensures BitsOf(a + b) == BitsOf(a) + BitsOf(b)
    decreases |a|
  {
    if a == [] {
      assert a + b == b;
    } else {
      BitsOfConcat(a[1..], b);
      assert (a + b)[0] == a[0] && (a + b)[1..] == a[1..] + b;
      Regrouped(Bits(a[0], 8), BitsOf(a[1..]), BitsOf(b));
    }
  }

  // ----- the reference: one bit at a time -----

  function Down(c: Word): Word {
    c[1..] + [false]
  }

  /** A message bit decides together with the lowest bit of the register whether the polynomial is added. */
  function Feed(c: Word, bit: bool): Word {
    if c[0] != bit then Xor(Poly(), Down(c)) else Down(c)
  }

  function FeedBits(c: Word, bits: seq<bool>): Word
    decreases |bits|
  {
    if bits == [] then c else FeedBits(Feed(c, bits[0]), bits[1..])
  }

  function Crc(data: seq<byte>): Word {
    Xor(FeedBits(Ones(), BitsOf(data)), Ones())
  }

  lemma {:induction false} FeedingInParts(c: Word, a: seq<bool>, b: seq<bool>)
    ensures FeedBits(c, a + b) == FeedBits(FeedBits(c, a), b)
    decreases |a|
  {
    if a == [] {
      assert a + b == b;
    } else {
      assert (a + b)[0] == a[0] && (a + b)[1..] == a[1..] + b;
      FeedingInParts(Feed(c, a[0]), a[1..], b);
    }
  }

  // ----- shifting is linear -----

  function Shift(c: Word): Word {
    Feed(c, false)
  }

  function Shifts(c: Word, n: nat): Word
    decreases n
  {
    if n == 0 then c else Shifts(Shift(c), n - 1)
  }

  function Pad(bits: seq<bool>): Word
    requires |bits| <= 32
  {
    bits + Zeros(32 - |bits|)
  }

  lemma ShiftIsLinear(a: Word, b: Word)
    ensures Shift(Xor(a, b)) == Xor(Shift(a), Shift(b))
  {
  }

  lemma {:induction false} ShiftsAreLinear(a: Word, b: Word, n: nat)
    ensures Shifts(Xor(a, b), n) == Xor(Shifts(a, n), Shifts(b, n))
    decreases n
  {
    if n > 0 {
      ShiftIsLinear(a, b);
      ShiftsAreLinear(Shift(a), Shift(b), n - 1);
    }
  }

  lemma FeedIsShift(c: Word, bits: seq<bool>)
    requires 0 < |bits| <= 32
    ensures Shift(Xor(c, Pad(bits))) == Xor(Feed(c, bits[0]), Pad(bits[1..]))
  {
  }

  /** Feeding bits is adding them to the register and shifting as many times. */
  lemma {:induction false} FeedingIsShifting(c: Word, bits: seq<bool>)
    requires |bits| <= 32
    ensures FeedBits(c, bits) == Shifts(Xor(c, Pad(bits)), |bits|)
    decreases |bits|
  {
    if bits == [] {
      assert Xor(c, Pad(bits)) == c;
    } else {
      FeedIsShift(c, bits);
      FeedingIsShifting(Feed(c, bits[0]), bits[1..]);
    }
  }

  /** Zero bits just move a word down. */
  lemma {:induction false} ShiftingZeros(c: Word, n: nat)
    requires n <= 32 && forall i :: 0 <= i < n ==> !c[i]
    ensures Shifts(c, n) == c[n..] + Zeros(n)
    decreases n
  {
    if n > 0 {
      ShiftingZeros(Down(c), n - 1);
      assert Down(c)[n - 1..] + Zeros(n - 1) == c[n..] + Zeros(n);
    }
  }

  /** The entry of the table for a byte, and what the loop does with it. */
  function Entry(bits: seq<bool>): Word
    requires |bits| == 8
  {
    Shifts(Pad(bits), 8)
  }

  function TableStep(c: Word, bits: seq<bool>): Word
    requires |bits| == 8
  {
    Xor(Entry(Xor(c, Pad(bits))[..8]), c[8..] + Zeros(8))
  }

  /** One turn of the table-driven loop does what feeding the eight bits of the byte does. */
  lemma TableStepIsFeeding(c: Word, bits: seq<bool>)
    requires |bits| == 8
    ensures TableStep(c, bits) == FeedBits(c, bits)
  {
    var w := Xor(c, Pad(bits));
    var low, high := Pad(w[..8]), Zeros(8) + w[8..];
    FeedingIsShifting(c, bits);
    assert Xor(low, high) == w;
    ShiftsAreLinear(low, high, 8);
    ShiftingZeros(high, 8);
    assert high[8..] + Zeros(8) == c[8..] + Zeros(8);
  }

  // ----- the code -----

  /** One entry of the table, by eight shifts of its index. */
  method TableEntry(i: nat) returns (c: Word)
    requires i < 0x100
    ensures c == Entry(Bits(i, 8))
  {
    c := Pad(Bits(i, 8));
    ghost var left := 8;
    for k := 0 to 8
      invariant left == 8 - k && Shifts(c, left) == Entry(Bits(i, 8))
    {
      if c[0] {
        c := Xor(Poly(), Down(c));
      } else {
        c := Down(c);
      }
      left := left - 1;
    }
  }

  method MakeTable() returns (table: array<Word>)
    ensures fresh(table) && table.Length == 0x100
    ensures forall j :: 0 <= j < 0x100 ==> table[j] == Entry(Bits(j, 8))
  {
    table := new Word[0x100](_ => Zeros(32));
    for i := 0 to 0x100
      invariant forall j :: 0 <= j < i ==> table[j] == Entry(Bits(j, 8))
    {
      table[i] := TableEntry(i);
    }
  }

  lemma Turn(crc: Word, data: seq<byte>, n: nat)
    requires n < |data| && crc == FeedBits(Ones(), BitsOf(data[..n]))
    ensures var low := Xor(crc, Pad(Bits(data[n], 8)))[..8];
            && Num(low) < 0x100
            && Xor(Entry(Bits(Num(low), 8)), crc[8..] + Zeros(8)) == FeedBits(Ones(), BitsOf(data[..n + 1]))
  {
    var low := Xor(crc, Pad(Bits(data[n], 8)))[..8];
    NumOfByte(low);
    BitsOfNum(low);
    TableStepIsFeeding(crc, Bits(data[n], 8));
    NextByte(data, n);
  }

  method Crc32(data: seq<byte>) returns (crc: Word)
    ensures crc == Crc(data)
  {
    var table := MakeTable();
    crc := Ones();
    for n := 0 to |data|
      invariant crc == FeedBits(Ones(), BitsOf(data[..n]))
      invariant forall j :: 0 <= j < 0x100 ==> table[j] == Entry(Bits(j, 8))
    {
      Turn(crc, data, n);
      var low := Xor(crc, Pad(Bits(data[n], 8)))[..8];
      crc := Xor(table[Num(low)], crc[8..] + Zeros(8));
    }
    assert data[..|data|] == data;
    crc := Xor(crc, Ones());
  }

  lemma NextByte(data: seq<byte>, n: nat)
    requires n < |data|
    ensures FeedBits(Ones(), BitsOf(data[..n + 1])) == FeedBits(FeedBits(Ones(), BitsOf(data[..n])), Bits(data[n], 8))
  {
    assert data[..n + 1] == data[..n] + [data[n]];
    BitsOfConcat(data[..n], [data[n]]);
    assert [data[n]][1..] == [] && BitsOf([data[n]]) == Bits(data[n], 8);
    FeedingInParts(Ones(), BitsOf(data[..n]), Bits(data[n], 8));
  }

  // ----- what it is good for -----

  lemma ShiftIsInjective(a: Word, b: Word)
    requires Shift(a) == Shift(b)
    ensures a == b
  {
    assert Shift(a)[31] == a[0] && Shift(b)[31] == b[0];
    DownOfShift(a);
    DownOfShift(b);
    assert a == [a[0]] + Down(a)[..31] && b == [b[0]] + Down(b)[..31];
  }

  lemma DownOfShift(a: Word)
    ensures Down(a) == if a[0] then Xor(Shift(a), Poly()) else Shift(a)
  {
  }

  lemma {:induction false} ShiftsAreInjective(a: Word, b: Word, n: nat)
    requires Shifts(a, n) == Shifts(b, n)
    ensures a == b
    decreases n
  {
    if n > 0 {
      ShiftsAreInjective(Shift(a), Shift(b), n - 1);
      ShiftIsInjective(a, b);
    }
  }

  lemma {:induction false} FeedingKeepsApart(a: Word, b: Word, bits: seq<bool>)
    requires FeedBits(a, bits) == FeedBits(b, bits)
    ensures a == b
    decreases |bits|
  {
    if bits != [] {
      FeedingKeepsApart(Feed(a, bits[0]), Feed(b, bits[0]), bits[1..]);
      var x := Pad([bits[0]]);
      FeedIsShift(a, [bits[0]]);
      FeedIsShift(b, [bits[0]]);
      XorUndoes(Feed(a, bits[0]), Feed(b, bits[0]), Pad([]));
      ShiftIsInjective(Xor(a, x), Xor(b, x));
      XorUndoes(a, b, x);
    }
  }

  lemma XorUndoes(a: Word, b: Word, x: Word)
    ensures Xor(a, x) == Xor(b, x) <==> a == b
  {
    assert Xor(Xor(a, x), x) == a && Xor(Xor(b, x), x) == b;
  }

  /** Damage confined to four neighbouring bytes never goes unnoticed. */
  lemma BurstsAreNoticed(before: seq<byte>, u: seq<byte>, v: seq<byte>, after: seq<byte>)
    requires |u| == |v| <= 4 && u != v
    ensures Crc(before + u + after) != Crc(before + v + after)
  {
    if Crc(before + u + after) == Crc(before + v + after) {
      InThreeParts(before, u, after);
      InThreeParts(before, v, after);
      XorUndoes(FeedBits(Ones(), BitsOf(before + u + after)), FeedBits(Ones(), BitsOf(before + v + after)), Ones());
      var s := FeedBits(Ones(), BitsOf(before));
      FeedingKeepsApart(FeedBits(s, BitsOf(u)), FeedBits(s, BitsOf(v)), BitsOf(after));
      FeedingIsShifting(s, BitsOf(u));
      FeedingIsShifting(s, BitsOf(v));
      var n := 8 * |u|;
      ShiftsAreInjective(Xor(s, Pad(BitsOf(u))), Xor(s, Pad(BitsOf(v))), n);
      SameBitsSameBytes(s, u, v);
    }
  }

  lemma InThreeParts(a: seq<byte>, b: seq<byte>, c: seq<byte>)
    ensures FeedBits(Ones(), BitsOf(a + b + c)) == FeedBits(FeedBits(FeedBits(Ones(), BitsOf(a)), BitsOf(b)), BitsOf(c))
  {
    BitsOfConcat(a + b, c);
    BitsOfConcat(a, b);
    FeedingInParts(Ones(), BitsOf(a) + BitsOf(b), BitsOf(c));
    FeedingInParts(Ones(), BitsOf(a), BitsOf(b));
  }

  lemma SameBitsSameBytes(s: Word, u: seq<byte>, v: seq<byte>)
    requires |u| == |v| <= 4 && Xor(s, Pad(BitsOf(u))) == Xor(s, Pad(BitsOf(v)))
    ensures u == v
  {
    var p, q := Pad(BitsOf(u)), Pad(BitsOf(v));
    assert Xor(s, Xor(s, p)) == p && Xor(s, Xor(s, q)) == q;
    assert p[..8 * |u|] == BitsOf(u) && q[..8 * |u|] == BitsOf(v);
    BitsTellBytes(u, v);
  }

  lemma {:induction false} BitsTellBytes(u: seq<byte>, v: seq<byte>)
    requires |u| == |v| && BitsOf(u) == BitsOf(v)
    ensures u == v
    decreases |u|
  {
    if u != [] {
      assert BitsOf(u)[..8] == Bits(u[0], 8) && BitsOf(v)[..8] == Bits(v[0], 8);
      assert BitsOf(u)[8..] == BitsOf(u[1..]) && BitsOf(v)[8..] == BitsOf(v[1..]);
      assert Power2(8) == 0x100 by {
        assert Power2(4) == 16;
      }
      NumOfBits(u[0], 8);
      NumOfBits(v[0], 8);
      BitsTellBytes(u[1..], v[1..]);
    }
  }

  /** The four bytes of a word. */
  function BytesOf(w: Word): seq<byte> {
    NumOfByte(w[..8]); NumOfByte(w[8..16]); NumOfByte(w[16..24]); NumOfByte(w[24..]);
    [Num(w[..8]), Num(w[8..16]), Num(w[16..24]), Num(w[24..])]
  }

  lemma BitsOfBytes(w: Word)
    ensures BitsOf(BytesOf(w)) == w
  {
    var b := BytesOf(w);
    BitsOfNum(w[..8]);
    BitsOfNum(w[8..16]);
    BitsOfNum(w[16..24]);
    BitsOfNum(w[24..]);
    assert b[1..] == [b[1], b[2], b[3]] && b[2..] == [b[2], b[3]] && b[3..] == [b[3]];
    assert b[1..][1..] == b[2..] && b[2..][1..] == b[3..] && b[3..][1..] == [];
    assert BitsOf(b[3..]) == w[24..];
    assert BitsOf(b[2..]) == w[16..24] + w[24..];
    assert BitsOf(b[1..]) == w[8..16] + (w[16..24] + w[24..]);
  }

  /** A message followed by its check leaves the register in one and the same state, whatever the message. */
  lemma CheckedMessagesLeaveOneState(data: seq<byte>)
    ensures FeedBits(Ones(), BitsOf(data + BytesOf(Crc(data)))) == Shifts(Ones(), 32)
  {
    var s, w := FeedBits(Ones(), BitsOf(data)), Crc(data);
    BitsOfConcat(data, BytesOf(w));
    BitsOfBytes(w);
    FeedingInParts(Ones(), BitsOf(data), w);
    FeedingIsShifting(s, w);
    assert Pad(w) == w;
    assert Xor(s, w) == Ones();
  }
}
