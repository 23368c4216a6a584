/** The table-driven CRC-32 against the bit-at-a-time CRC of section 8 of RFC 1952,
    and the errors it is certain to detect. Bit operations are named, so that
    only the small lemmas about them look at bits. */
module Crc32 {

  const POLYNOMIAL: bv32 := 0xEDB8_8320
  const ALL_ONES: bv32 := 0xFFFF_FFFF

  function Xor(a: bv32, b: bv32): bv32 { a ^ b }
  function Wide(b: bv8): bv32 { b as bv32 }
  function LowBit(b: bv8): bv32 { (b & 1) as bv32 }
  function Half(b: bv8): bv8 { b >> 1 }

  /** One step of the shift register. */
  function Shift(crc: bv32): bv32 {
    if crc & 1 == 1 then (crc >> 1) ^ POLYNOMIAL else crc >> 1
  }

  function Shifts(crc: bv32, n: nat): bv32
    decreases n
  {
    if n == 0 then crc else Shifts(Shift(crc), n - 1)
  }

  // ---- reference: the message bit by bit, least significant bit of each byte first -----

  /** Feed the `n` lowest bits of `b`, lowest first. */
  function FeedBits(crc: bv32, b: bv8, n: nat): bv32
    decreases n
  {
    if n == 0 then crc else FeedBits(Shift(Xor(crc, LowBit(b))), Half(b), n - 1)
  }

  function FeedByte(crc: bv32, b: bv8): bv32 {
    FeedBits(crc, b, 8)
  }

  function Feed(crc: bv32, message: seq<bv8>): bv32
    decreases message
  {
    if message == [] then crc else Feed(FeedByte(crc, message[0]), message[1..])
  }

  /** The CRC of a message: register preset to ones, result complemented. */
  function Crc(message: seq<bv8>): bv32 {
    Xor(Feed(ALL_ONES, message), ALL_ONES)
  }

  // ---- facts about bits ---------------------------------------------------------------------

  lemma XorAssociative(a: bv32, b: bv32, c: bv32)
    ensures Xor(a, Xor(b, c)) == Xor(Xor(a, b), c)
  {
  }

  lemma XorCommutes(a: bv32, b: bv32)
    ensures Xor(a, b) == Xor(b, a)
  {
  }

  lemma XorCancels(a: bv32, b: bv32, c: bv32)
    requires Xor(a, c) == Xor(b, c)
    ensures a == b
  {
  }

  lemma XorZero(a: bv32)
    ensures Xor(a, 0) == a
  {
  }

  lemma XorHalves(x: bv32, y: bv32)
    ensures (x ^ y) >> 1 == (x >> 1) ^ (y >> 1)
  {
  }

  lemma XorLowBit(x: bv32, y: bv32)
    ensures (x ^ y) & 1 == (x & 1) ^ (y & 1)
    ensures x & 1 == 0 || x & 1 == 1
  {
  }

  lemma XorRules(a: bv32, b: bv32, p: bv32)
    ensures (a ^ p) ^ (b ^ p) == a ^ b
    ensures (a ^ p) ^ b == (a ^ b) ^ p
    ensures a ^ (b ^ p) == (a ^ b) ^ p
  {
  }

  lemma ShiftLinearBits(x: bv32, y: bv32)
    ensures Shift(x ^ y) == Shift(x) ^ Shift(y)
  {
    XorHalves(x, y);
    XorLowBit(x, y);
    XorLowBit(y, x);
    XorRules(x >> 1, y >> 1, POLYNOMIAL);
    if x & 1 == 1 && y & 1 == 1 {
    } else if x & 1 == 1 {
    } else if y & 1 == 1 {
    } else {
    }
  }

  lemma ShiftLinear(x: bv32, y: bv32)
    ensures Shift(Xor(x, y)) == Xor(Shift(x), Shift(y))
  {
    hide Shift;
    ShiftLinearBits(x, y);
  }

  /** The polynomial has its top bit set, so a shift loses nothing. */
  lemma ShiftInjective(x: bv32, y: bv32)
    requires Shift(x) == Shift(y)
    ensures x == y
  {
  }

  lemma ShiftEven(x: bv32)
    requires x & 1 == 0
    ensures Shift(x) == x >> 1
  {
  }

  function HighBits(b: bv8): bv32 { (b & 0xFE) as bv32 }

  lemma ByteHalves(b: bv8)
    ensures Wide(b) == Xor(LowBit(b), HighBits(b))
    ensures Shift(HighBits(b)) == Wide(Half(b))
  {
  }

  // ---- the shift register is linear and loses nothing -----------------------------------------

  lemma {:induction false} ShiftsLinear(x: bv32, y: bv32, n: nat)
    ensures Shifts(Xor(x, y), n) == Xor(Shifts(x, n), Shifts(y, n))
    decreases n
  {
    hide Shift, Xor;
    if n == 0 {
    } else {
      ShiftLinear(x, y);
      ShiftsLinear(Shift(x), Shift(y), n - 1);
    }
  }

  lemma {:induction false} ShiftsInjective(x: bv32, y: bv32, n: nat)
    requires Shifts(x, n) == Shifts(y, n)
    ensures x == y
    decreases n
  {
    hide Shift;
    if n == 0 {
    } else {
      ShiftsInjective(Shift(x), Shift(y), n - 1);
      ShiftInjective(x, y);
    }
  }

  // ---- one byte at a time ------------------------------------------------------------------

  /** Feeding the low bit leaves the rest of the byte to be fed, one place lower. */
  lemma {:induction false} FeedLowBit(crc: bv32, b: bv8)
    ensures Shift(Xor(crc, Wide(b))) == Xor(Shift(Xor(crc, LowBit(b))), Wide(Half(b)))
  {
    hide Shift, Xor, Wide, LowBit, Half, HighBits;
    ByteHalves(b);
    XorAssociative(crc, LowBit(b), HighBits(b));
    ShiftLinear(Xor(crc, LowBit(b)), HighBits(b));
  }

  function Rest(b: bv8, n: nat): bv8
    decreases n
  {
    if n == 0 then b else Rest(Half(b), n - 1)
  }

  lemma {:induction false} FeedBitsShifts(crc: bv32, b: bv8, n: nat)
    ensures Xor(FeedBits(crc, b, n), Wide(Rest(b, n))) == Shifts(Xor(crc, Wide(b)), n)
    decreases n
  {
    hide Shift, Xor, Wide, LowBit, Half;
    if n == 0 {
    } else {
      FeedLowBit(crc, b);
      FeedBitsShifts(Shift(Xor(crc, LowBit(b))), Half(b), n - 1);
    }
  }

  lemma RestGone(b: bv8)
    ensures Wide(Rest(b, 8)) == 0
  {
    assert Rest(b, 8) == Rest(b >> 1 >> 1, 6);
    assert b >> 1 >> 1 == b >> 2;
    assert Rest(b >> 2, 6) == Rest(b >> 2 >> 1 >> 1, 4);
    assert b >> 2 >> 1 >> 1 == b >> 4;
    assert Rest(b >> 4, 4) == Rest(b >> 4 >> 1 >> 1, 2);
    assert b >> 4 >> 1 >> 1 == b >> 6;
    assert Rest(b >> 6, 2) == Rest(b >> 6 >> 1 >> 1, 0);
    assert b >> 6 >> 1 >> 1 == 0;
  }

  /** Feeding a byte bit by bit is eight shifts of the register with the byte added in. */
  lemma {:induction false} FeedByteShifts(crc: bv32, b: bv8)
    ensures FeedByte(crc, b) == Shifts(Xor(crc, Wide(b)), 8)
  {
    hide Shift, Shifts, Xor, Wide, FeedBits, Rest;
    FeedBitsShifts(crc, b, 8);
    RestGone(b);
    XorZero(FeedBits(crc, b, 8));
  }

  function Down(x: bv32): bv32 { (x >> 8) & 0x00FF_FFFF }

  /** Eight shifts of a register whose low byte is clear only move it down. */
  lemma {:induction false} HighBytesShift(x: bv32)
    requires x & 0xFF == 0
    ensures Shifts(x, 8) == Down(x)
  {
    hide Shift, Shifts, Quarter, Even4, Down;
    LowClear(x);
    var q1 := Quarter(x);
    var q2 := Quarter(q1);
    var q3 := Quarter(q2);
    ShiftsTwo(x, 6);
    ShiftsTwo(q1, 4);
    ShiftsTwo(q2, 2);
    ShiftsTwo(q3, 0);
    ShiftsNone(Quarter(q3));
  }

  function Quarter(x: bv32): bv32 { x >> 2 }

  predicate Even4(x: bv32) { x & 3 == 0 }

  lemma LowClear(x: bv32)
    requires x & 0xFF == 0
    ensures Even4(x) && Even4(Quarter(x)) && Even4(Quarter(Quarter(x))) && Even4(Quarter(Quarter(Quarter(x))))
    ensures Quarter(Quarter(Quarter(Quarter(x)))) == Down(x)
  {
  }

  lemma {:induction false} ShiftsTwo(x: bv32, n: nat)
    requires Even4(x)
    ensures Shifts(x, n + 2) == Shifts(Quarter(x), n)
  {
    Shift2(x);
    ShiftsUnfold(x, n);
  }

  lemma {:induction false} ShiftsUnfold(x: bv32, n: nat)
    ensures Shifts(x, n + 2) == Shifts(Shift(Shift(x)), n)
  {
    hide Shift;
  }

  lemma ShiftsNone(x: bv32)
    ensures Shifts(x, 0) == x
  {
  }

  lemma Shift2(x: bv32)
    requires Even4(x)
    ensures Shift(Shift(x)) == Quarter(x)
  {
    ShiftEven(x);
    ShiftEven(x >> 1);
  }

  // ---- the table -------------------------------------------------------------------------------

  ghost predicate IsTable(table: seq<bv32>) {
    |table| == 256 && forall i :: 0 <= i < 256 ==> table[i] == Shifts(i as bv32, 8)
  }

  /** The inner loop: eight bit steps. */
  method MakeEntry(i: bv32) returns (crc: bv32)
    ensures crc == Shifts(i, 8)
  {
    crc := i;
    for j := 8 downto 0
      invariant Shifts(crc, j) == Shifts(i, 8)
    {
      if crc & 1 == 1 {
        crc := (crc >> 1) ^ POLYNOMIAL;
      } else {
        crc := crc >> 1;
      }
    }
  }

  method MakeTable() returns (table: array<bv32>)
    ensures fresh(table) && IsTable(table[..])
  {
    hide Shifts;
    table := new bv32[256];
    for i := 0 to 256
      invariant forall k :: 0 <= k < i ==> table[k] == Shifts(k as bv32, 8)
    {
      table[i] := MakeEntry(i as bv32);
    }
  }

  function Low(x: bv32): bv32 { x & 0xFF }
  function High(x: bv32): bv32 { x & 0xFFFF_FF00 }

  lemma SplitLow(crc: bv32, b: bv8)
    ensures var w := Xor(crc, Wide(b));
      && w == Xor(Low(w), High(w))
      && High(w) & 0xFF == 0
      && Down(High(w)) == Down(crc)
  {
  }

  /** One table lookup does the work of eight bit steps. */
  lemma {:induction false} TableStep(crc: bv32, b: bv8)
    ensures Xor(Down(crc), Shifts(Low(Xor(crc, Wide(b))), 8)) == FeedByte(crc, b)
  {
    hide Shift, Shifts, Xor, Wide, FeedByte, Low, Down;
    var w := Xor(crc, Wide(b));
    SplitLow(crc, b);
    ShiftsLinear(Low(w), High(w), 8);
    HighBytesShift(High(w));
    FeedByteShifts(crc, b);
    XorCommutes(Down(crc), Shifts(Low(w), 8));
  }

  lemma IndexBack(x: bv32)
    ensures 0 <= Low(x) as int < 256 && (Low(x) as int) as bv32 == Low(x)
  {
  }

  /** One round of the loop: what the table entry turns the register into. */
  lemma {:induction false} TableRound(table: seq<bv32>, crc: bv32, b: bv8)
    requires IsTable(table)
    ensures 0 <= Low(Xor(crc, Wide(b))) as int < 256 == |table|
    ensures Xor(Down(crc), table[Low(Xor(crc, Wide(b))) as int]) == FeedByte(crc, b)
  {
    hide Shift, Shifts, Xor, Wide, FeedByte, Down;
    IndexBack(Xor(crc, Wide(b)));
    TableStep(crc, b);
  }

  /** For every buffer the table-driven loop computes the CRC of RFC 1952. */
  method Calculate(table: seq<bv32>, buffer: seq<bv8>) returns (r: bv32)
    requires IsTable(table)
    ensures r == Crc(buffer)
  {
    hide Shifts, FeedByte, Xor, Down, Low, Wide, IsTable;
    var crc := ALL_ONES;
    assert buffer[0..] == buffer;
    for i := 0 to |buffer|
      invariant Feed(crc, buffer[i..]) == Feed(ALL_ONES, buffer)
    {
      TableRound(table, crc, buffer[i]);
      assert buffer[i..][1..] == buffer[i + 1..];
      crc := Xor(Down(crc), table[Low(Xor(crc, Wide(buffer[i]))) as int]);
    }
    assert buffer[|buffer|..] == [];
    return Xor(crc, ALL_ONES);
  }

  // ---- errors the CRC is certain to detect ------------------------------------------------------

  lemma {:induction false} FeedConcat(crc: bv32, a: seq<bv8>, b: seq<bv8>)
    ensures Feed(crc, a + b) == Feed(Feed(crc, a), b)
    decreases |a|
  {
    hide FeedByte;
    if a == [] {
      assert a + b == b;
    } else {
      assert (a + b)[1..] == a[1..] + b;
      FeedConcat(FeedByte(crc, a[0]), a[1..], b);
    }
  }

  lemma {:induction false} FeedByteInjective(x: bv32, y: bv32, b: bv8)
    requires FeedByte(x, b) == FeedByte(y, b)
    ensures x == y
  {
    hide Shifts, Xor, Wide, FeedByte;
    FeedByteShifts(x, b);
    FeedByteShifts(y, b);
    ShiftsInjective(Xor(x, Wide(b)), Xor(y, Wide(b)), 8);
    XorCancels(x, y, Wide(b));
  }

  /** Equal input keeps different registers different. */
  lemma {:induction false} FeedInjective(x: bv32, y: bv32, message: seq<bv8>)
    requires Feed(x, message) == Feed(y, message)
    ensures x == y
    decreases |message|
  {
    hide FeedByte;
    if message == [] {
    } else {
      FeedInjective(FeedByte(x, message[0]), FeedByte(y, message[0]), message[1..]);
      FeedByteInjective(x, y, message[0]);
    }
  }

  lemma WideInjective(b: bv8, c: bv8)
    requires Wide(b) == Wide(c)
    ensures b == c
  {
  }

  lemma {:induction false} CrcEqual(x: seq<bv8>, y: seq<bv8>)
    requires Crc(x) == Crc(y)
    ensures Feed(ALL_ONES, x) == Feed(ALL_ONES, y)
  {
    XorCancels(Feed(ALL_ONES, x), Feed(ALL_ONES, y), ALL_ONES);
  }

  /** Two messages of any length that differ in exactly one byte have different CRCs. */
  lemma {:induction false} DetectsByte(before: seq<bv8>, a: bv8, b: bv8, after: seq<bv8>)
    ensures Crc(before + [a] + after) == Crc(before + [b] + after) <==> a == b
  {
    hide Shifts, Xor, Feed, Crc, Wide, FeedByte;
    if Crc(before + [a] + after) == Crc(before + [b] + after) {
      CrcEqual(before + [a] + after, before + [b] + after);
      FeedConcat(ALL_ONES, before + [a], after);
      FeedConcat(ALL_ONES, before + [b], after);
      FeedInjective(Feed(ALL_ONES, before + [a]), Feed(ALL_ONES, before + [b]), after);
      FeedConcat(ALL_ONES, before, [a]);
      FeedConcat(ALL_ONES, before, [b]);
      var crc := Feed(ALL_ONES, before);
      FeedOne(crc, a);
      FeedOne(crc, b);
      FeedByteShifts(crc, a);
      FeedByteShifts(crc, b);
      ShiftsInjective(Xor(crc, Wide(a)), Xor(crc, Wide(b)), 8);
      XorCommutes(crc, Wide(a));
      XorCommutes(crc, Wide(b));
      XorCancels(Wide(a), Wide(b), crc);
      WideInjective(a, b);
    }
  }

  lemma {:induction false} FeedOne(crc: bv32, b: bv8)
    ensures Feed(crc, [b]) == FeedByte(crc, b)
  {
    hide FeedByte;
    assert [b][1..] == [];
  }

  // ---- bursts: the message as a row of bits ----------------------------------------------------------

  function Bit(b: bool): bv32 {
    if b then 1 else 0
  }

  /** The `n` lowest bits of a byte, lowest first. */
  function ByteBits(b: bv8, n: nat): (r: seq<bool>)
    ensures |r| == n
    decreases n
  {
    if n == 0 then [] else [b & 1 == 1] + ByteBits(Half(b), n - 1)
  }

  /** A message in the order its bits are fed. */
  function Row(message: seq<bv8>): (r: seq<bool>)
    ensures |r| == 8 * |message|
  {
    if message == [] then [] else ByteBits(message[0], 8) + Row(message[1..])
  }

  function FeedRow(crc: bv32, bits: seq<bool>): bv32
    decreases bits
  {
    if bits == [] then crc else FeedRow(Shift(Xor(crc, Bit(bits[0]))), bits[1..])
  }

  lemma {:induction false} FeedRowConcat(crc: bv32, a: seq<bool>, b: seq<bool>)
    ensures FeedRow(crc, a + b) == FeedRow(FeedRow(crc, a), b)
    decreases |a|
  {
    hide Shift, Xor;
    if a == [] {
      assert a + b == b;
    } else {
      assert (a + b)[1..] == a[1..] + b;
      FeedRowConcat(Shift(Xor(crc, Bit(a[0]))), a[1..], b);
    }
  }

  lemma BitIsLow(b: bv8)
    ensures Bit(b & 1 == 1) == LowBit(b)
  {
  }

  lemma {:induction false} FeedByteRow(crc: bv32, b: bv8, n: nat)
    ensures FeedRow(crc, ByteBits(b, n)) == FeedBits(crc, b, n)
    decreases n
  {
    hide Shift, Xor, Bit, LowBit, Half;
    if n == 0 {
    } else {
      BitIsLow(b);
      assert ByteBits(b, n)[1..] == ByteBits(Half(b), n - 1);
      FeedByteRow(Shift(Xor(crc, LowBit(b))), Half(b), n - 1);
    }
  }

  lemma {:induction false} FeedMessageRow(crc: bv32, message: seq<bv8>)
    ensures FeedRow(crc, Row(message)) == Feed(crc, message)
    decreases |message|
  {
    hide FeedRow, ByteBits, FeedBits;
    if message == [] {
      RowEnd(crc);
    } else {
      FeedByteRow(crc, message[0], 8);
      FeedRowConcat(crc, ByteBits(message[0], 8), Row(message[1..]));
      FeedMessageRow(FeedByte(crc, message[0]), message[1..]);
    }
  }

  lemma RowEnd(crc: bv32)
    ensures FeedRow(crc, []) == crc
  {
  }

  /** Equal bits keep different registers different. */
  lemma {:induction false} FeedRowInjective(x: bv32, y: bv32, bits: seq<bool>)
    requires FeedRow(x, bits) == FeedRow(y, bits)
    ensures x == y
    decreases |bits|
  {
    hide Shift, Xor, Bit;
    if bits == [] {
    } else {
      var b := Bit(bits[0]);
      FeedRowInjective(Shift(Xor(x, b)), Shift(Xor(y, b)), bits[1..]);
      ShiftInjective(Xor(x, b), Xor(y, b));
      XorCancels(x, y, b);
    }
  }

  /** A row of bits as a number, its first bit the lowest. */
  function Number(bits: seq<bool>): bv32
    decreases bits
  {
    if bits == [] then 0 else Append(bits[0], Number(bits[1..]))
  }

  function Append(b: bool, w: bv32): bv32 {
    Xor(Bit(b), Twice(w))
  }

  function Twice(w: bv32): bv32 { w << 1 }

  predicate TopClear(w: bv32) { w & 0x8000_0000 == 0 }

  /** The `k` highest bits of a register are zero. */
  predicate Clear(w: bv32, k: nat)
    decreases k
  {
    k == 0 || (TopClear(w) && Clear(Twice(w), k - 1))
  }

  lemma TwiceLinear(x: bv32, y: bv32)
    ensures Twice(Xor(x, y)) == Xor(Twice(x), Twice(y))
    ensures TopClear(x) && TopClear(y) ==> TopClear(Xor(x, y))
  {
  }

  lemma {:induction false} ClearSum(x: bv32, y: bv32, k: nat)
    requires Clear(x, k) && Clear(y, k)
    ensures Clear(Xor(x, y), k)
    decreases k
  {
    hide Twice, TopClear, Xor;
    if k == 0 {
    } else {
      TwiceLinear(x, y);
      ClearSum(Twice(x), Twice(y), k - 1);
    }
  }

  lemma {:induction false} ClearLess(w: bv32, k: nat, j: nat)
    requires Clear(w, k) && j <= k
    ensures Clear(w, j)
    decreases k
  {
    hide Twice, TopClear;
    if j == 0 {
    } else {
      ClearLess(Twice(w), k - 1, j - 1);
    }
  }

  lemma {:induction false} ClearZero(k: nat)
    ensures Clear(0, k)
    decreases k
  {
    if k == 0 {
    } else {
      ClearZero(k - 1);
    }
  }

  lemma ClearOne()
    ensures Clear(1, 31)
  {
    assert Clear(0x8000_0000, 0);
    ClearFour(0x0800_0000, 0x8000_0000, 0);
    ClearFour(0x0080_0000, 0x0800_0000, 4);
    ClearFour(0x0008_0000, 0x0080_0000, 8);
    ClearFour(0x0000_8000, 0x0008_0000, 12);
    ClearFour(0x0000_0800, 0x0000_8000, 16);
    ClearFour(0x0000_0080, 0x0000_0800, 20);
    ClearFour(0x0000_0008, 0x0000_0080, 24);
    assert Clear(0x4, 29) by { assert Twice(0x4) == 0x8; }
    assert Clear(0x2, 30) by { assert Twice(0x2) == 0x4; }
    assert Clear(0x1, 31) by { assert Twice(0x1) == 0x2; }
  }

  lemma ClearFour(w: bv32, v: bv32, k: nat)
    requires w & 0xF000_0000 == 0 && v == w << 4 && Clear(v, k)
    ensures Clear(w, k + 4)
  {
    var a, b, c := Twice(w), Twice(Twice(w)), Twice(Twice(Twice(w)));
    assert Twice(c) == v && TopClear(w) && TopClear(a) && TopClear(b) && TopClear(c);
    hide Twice, TopClear;
    assert Clear(c, k + 1);
    assert Clear(b, k + 2);
    assert Clear(a, k + 3);
  }

  lemma {:induction false} NumberClear(bits: seq<bool>)
    requires |bits| <= 32
    ensures Clear(Number(bits), 32 - |bits|)
    decreases |bits|
  {
    hide Xor, Twice, TopClear;
    var k := 32 - |bits|;
    if bits == [] {
      ClearZero(32);
    } else {
      NumberClear(bits[1..]);
      ClearZero(k);
      ClearOne();
      ClearLess(1, 31, k);
      ClearSum(Bit(bits[0]), Twice(Number(bits[1..])), k);
    }
  }

  lemma NumberSmall(bits: seq<bool>)
    requires |bits| <= 31
    ensures TopClear(Number(bits))
  {
    hide Number, TopClear, Twice;
    NumberClear(bits);
  }

  lemma ShiftTwice(w: bv32)
    requires TopClear(w)
    ensures Shift(Twice(w)) == w
  {
  }

  predicate Odd(u: bv32) { u & 1 == 1 }

  lemma AppendParity(b: bool, w: bv32)
    ensures Odd(Append(b, w)) <==> b
  {
  }

  lemma AppendInjective(b: bool, w: bv32, c: bool, v: bv32)
    requires TopClear(w) && TopClear(v) && Append(b, w) == Append(c, v)
    ensures b == c && w == v
  {
    hide Twice, TopClear, Shift, Xor, Odd, Bit;
    AppendParity(b, w);
    AppendParity(c, v);
    XorCommutes(Bit(b), Twice(w));
    XorCommutes(Bit(b), Twice(v));
    XorCancels(Twice(w), Twice(v), Bit(b));
    ShiftTwice(w);
    ShiftTwice(v);
  }

  /** Up to 32 bits are fed like one number added to the register. */
  lemma {:induction false} FeedNumber(crc: bv32, bits: seq<bool>)
    requires |bits| <= 32
    ensures FeedRow(crc, bits) == Shifts(Xor(crc, Number(bits)), |bits|)
    decreases |bits|
  {
    hide Shift, Xor, Bit, Append;
    if bits == [] {
      XorZero(crc);
    } else {
      var w := Number(bits[1..]);
      NumberSmall(bits[1..]);
      FeedNumber(Shift(Xor(crc, Bit(bits[0]))), bits[1..]);
      FeedAppend(crc, bits[0], w);
    }
  }

  lemma FeedAppend(crc: bv32, b: bool, w: bv32)
    requires TopClear(w)
    ensures Shift(Xor(crc, Append(b, w))) == Xor(Shift(Xor(crc, Bit(b))), w)
  {
    hide Shift, Xor, Bit, Twice, TopClear;
    XorAssociative(crc, Bit(b), Twice(w));
    ShiftLinear(Xor(crc, Bit(b)), Twice(w));
    ShiftTwice(w);
  }

  lemma {:induction false} NumberInjective(a: seq<bool>, b: seq<bool>)
    requires |a| == |b| <= 32 && Number(a) == Number(b)
    ensures a == b
    decreases |a|
  {
    hide Append;
    if a == [] {
    } else {
      NumberSmall(a[1..]);
      NumberSmall(b[1..]);
      AppendInjective(a[0], Number(a[1..]), b[0], Number(b[1..]));
      NumberInjective(a[1..], b[1..]);
      assert a == [a[0]] + a[1..] && b == [b[0]] + b[1..];
    }
  }

  /** From one register, different rows of up to 32 bits lead to different registers. */
  lemma {:induction false} WindowInjective(crc: bv32, a: seq<bool>, b: seq<bool>)
    requires |a| == |b| <= 32 && FeedRow(crc, a) == FeedRow(crc, b)
    ensures a == b
  {
    hide Shifts, Xor, FeedRow, Number;
    FeedNumber(crc, a);
    FeedNumber(crc, b);
    ShiftsInjective(Xor(crc, Number(a)), Xor(crc, Number(b)), |a|);
    XorCommutes(crc, Number(a));
    XorCommutes(crc, Number(b));
    XorCancels(Number(a), Number(b), crc);
    NumberInjective(a, b);
  }

  lemma ByteFromParts(b: bv8, c: bv8)
    requires b & 1 == c & 1 && Half(b) == Half(c)
    ensures b == c
  {
  }

  lemma OneBit(b: bv8)
    ensures b & 1 == 0 || b & 1 == 1
  {
  }

  lemma {:induction false} ByteBitsInjective(b: bv8, c: bv8, n: nat)
    requires ByteBits(b, n) == ByteBits(c, n) && Rest(b, n) == Rest(c, n)
    ensures b == c
    decreases n
  {
    hide Half;
    if n == 0 {
    } else {
      assert ByteBits(b, n)[0] == ByteBits(c, n)[0] && ByteBits(b, n)[1..] == ByteBits(c, n)[1..];
      assert ByteBits(b, n)[1..] == ByteBits(Half(b), n - 1) && ByteBits(c, n)[1..] == ByteBits(Half(c), n - 1);
      ByteBitsInjective(Half(b), Half(c), n - 1);
      OneBit(b);
      OneBit(c);
      ByteFromParts(b, c);
    }
  }

  lemma {:induction false} RowInjective(x: seq<bv8>, y: seq<bv8>)
    requires |x| == |y| && Row(x) == Row(y)
    ensures x == y
    decreases |x|
  {
    hide ByteBits, Rest, Wide;
    if x == [] {
    } else {
      var a, b := ByteBits(x[0], 8), ByteBits(y[0], 8);
      assert Row(x)[..8] == a && Row(y)[..8] == b && Row(x)[8..] == Row(x[1..]) && Row(y)[8..] == Row(y[1..]);
      RestGone(x[0]);
      RestGone(y[0]);
      WideInjective(Rest(x[0], 8), Rest(y[0], 8));
      ByteBitsInjective(x[0], y[0], 8);
      RowInjective(x[1..], y[1..]);
      assert x == [x[0]] + x[1..] && y == [y[0]] + y[1..];
    }
  }

  /** The rows agree but for the 32 bits from `at` on, as far as there are that many. */
  ghost predicate AgreeOutside(a: seq<bool>, b: seq<bool>, at: nat) {
    |a| == |b| && forall i :: 0 <= i < |a| && (i < at || at + 32 <= i) ==> a[i] == b[i]
  }

  lemma {:induction false} BurstRow(crc: bv32, a: seq<bool>, b: seq<bool>, at: nat)
    requires AgreeOutside(a, b, at) && FeedRow(crc, a) == FeedRow(crc, b)
    ensures a == b
  {
    hide FeedRow;
    var from := if at < |a| then at else |a|;
    var to := if at + 32 < |a| then at + 32 else |a|;
    assert a == a[..from] + a[from..to] + a[to..] && b == b[..from] + b[from..to] + b[to..];
    assert a[..from] == b[..from] && a[to..] == b[to..];
    FeedRowConcat(crc, a[..from] + a[from..to], a[to..]);
    FeedRowConcat(crc, b[..from] + b[from..to], b[to..]);
    FeedRowConcat(crc, a[..from], a[from..to]);
    FeedRowConcat(crc, b[..from], b[from..to]);
    var reg := FeedRow(crc, a[..from]);
    FeedRowInjective(FeedRow(reg, a[from..to]), FeedRow(reg, b[from..to]), a[to..]);
    WindowInjective(reg, a[from..to], b[from..to]);
  }

  /** Two messages of one length that differ only within 32 consecutive bits, wherever in a byte
      these start, have the same CRC if and only if they are the same message. */
  lemma {:induction false} DetectsBurst(x: seq<bv8>, y: seq<bv8>, at: nat)
    requires |x| == |y| && AgreeOutside(Row(x), Row(y), at)
    ensures Crc(x) == Crc(y) <==> x == y
  {
    hide Crc, Feed, Row, FeedRow, AgreeOutside;
    if Crc(x) == Crc(y) {
      CrcEqual(x, y);
      FeedMessageRow(ALL_ONES, x);
      FeedMessageRow(ALL_ONES, y);
      BurstRow(ALL_ONES, Row(x), Row(y), at);
      RowInjective(x, y);
    }
  }

  // ---- which CRC it is ----------------------------------------------------------------------------------

  function ByteAt(w: bv32, k: nat): bv8
    requires k < 4
  {
    match k
    case 0 => (w & 0xFF) as bv8
    case 1 => ((w >> 8) & 0xFF) as bv8
    case 2 => ((w >> 16) & 0xFF) as bv8
    case _ => ((w >> 24) & 0xFF) as bv8
  }

  /** A CRC as it is put behind a message: least significant byte first. */
  function Bytes(w: bv32): seq<bv8> {
    [ByteAt(w, 0), ByteAt(w, 1), ByteAt(w, 2), ByteAt(w, 3)]
  }

  lemma EntryFF()
    ensures Shifts(0xFF, 8) == 0x2D02EF8D
  {
    assert Shifts(0x000000FF, 8) == Shifts(0x9B64C28F, 6);
    assert Shifts(0x9B64C28F, 6) == Shifts(0xBDBDF213, 4);
    assert Shifts(0xBDBDF213, 4) == Shifts(0xB40BBE34, 2);
    assert Shifts(0xB40BBE34, 2) == Shifts(0x2D02EF8D, 0);
  }

  lemma Entry72()
    ensures Shifts(0x72, 8) == 0xBE0B1010
  {
    assert Shifts(0x00000072, 8) == Shifts(0xEDB8833C, 6);
    assert Shifts(0xEDB8833C, 6) == Shifts(0x3B6E20CF, 4);
    assert Shifts(0x3B6E20CF, 4) == Shifts(0x95BF4A83, 2);
    assert Shifts(0x95BF4A83, 2) == Shifts(0xBE0B1010, 0);
  }

  lemma Entry00()
    ensures Shifts(0x00, 8) == 0x00000000
  {
    assert Shifts(0x00000000, 8) == Shifts(0x00000000, 6);
    assert Shifts(0x00000000, 6) == Shifts(0x00000000, 4);
    assert Shifts(0x00000000, 4) == Shifts(0x00000000, 2);
    assert Shifts(0x00000000, 2) == Shifts(0x00000000, 0);
  }

  lemma EntryED()
    ensures Shifts(0xED, 8) == 0xDEBB9EC5
  {
    assert Shifts(0x000000ED, 8) == Shifts(0x76DC41AB, 6);
    assert Shifts(0x76DC41AB, 6) == Shifts(0x86D3D2DA, 4);
    assert Shifts(0x86D3D2DA, 4) == Shifts(0xCC0C7796, 2);
    assert Shifts(0xCC0C7796, 2) == Shifts(0xDEBB9EC5, 0);
  }

  function LowByte(w: bv32): bv8 { (w & 0xFF) as bv8 }

  lemma WideLow(w: bv32)
    ensures Wide(LowByte(w)) == Low(w)
  {
  }

  lemma LowLinear(x: bv32, y: bv32)
    ensures Low(Xor(x, y)) == Xor(Low(x), Low(y)) && Low(Low(x)) == Low(x) && Low(ALL_ONES) == 0xFF
    ensures Down(Xor(x, y)) == Xor(Down(x), Down(y))
  {
  }

  lemma XorSelf(a: bv32)
    ensures Xor(a, a) == 0
  {
  }

  lemma XorTwice(a: bv32, b: bv32, c: bv32)
    ensures Xor(Xor(a, b), Xor(a, c)) == Xor(b, c)
  {
    hide Xor;
    XorAssociative(Xor(a, b), a, c);
    XorCommutes(Xor(a, b), a);
    XorAssociative(a, a, b);
    XorSelf(a);
    XorCommutes(0, b);
    XorZero(b);
  }

  /** The bytes of the complement, as they come out of a register that is moved down. */
  lemma DownBytes(r: bv32)
    ensures ByteAt(Xor(r, ALL_ONES), 0) == LowByte(Xor(r, ALL_ONES))
    ensures ByteAt(Xor(r, ALL_ONES), 1) == LowByte(Xor(Down(r), ALL_ONES))
    ensures ByteAt(Xor(r, ALL_ONES), 2) == LowByte(Xor(Down(Down(r)), ALL_ONES))
    ensures ByteAt(Xor(r, ALL_ONES), 3) == LowByte(Xor(Down(Down(Down(r))), ALL_ONES))
    ensures Down(Down(Down(Down(r)))) == 0
  {
  }

  /** Feeding the complement of what is left of a register: it cancels in the low byte, and a
      constant remains, whatever was left. */
  lemma {:induction false} CancelRound(left: bv32, extra: bv32, entry: bv32)
    requires entry == Shifts(Xor(Low(extra), 0xFF), 8)
    ensures FeedByte(Xor(left, extra), LowByte(Xor(left, ALL_ONES))) == Xor(Down(left), Xor(Down(extra), entry))
  {
    hide FeedByte, Shifts, Xor, Low, Down, Wide, LowByte;
    var crc, x := Xor(left, extra), Xor(left, ALL_ONES);
    TableStep(crc, LowByte(x));
    WideLow(x);
    LowLinear(crc, Low(x));
    LowLinear(left, ALL_ONES);
    LowLinear(x, 0);
    LowLinear(left, extra);
    XorTwice(Low(left), Low(extra), 0xFF);
    XorAssociative(Down(left), Down(extra), entry);
  }

  lemma Constants()
    ensures Xor(Low(0), 0xFF) == 0xFF && Xor(Down(0), 0x2D02EF8D) == 0x2D02EF8D
    ensures Xor(Low(0x2D02EF8D), 0xFF) == 0x72 && Xor(Down(0x2D02EF8D), 0xBE0B1010) == 0xBE2612FF
    ensures Xor(Low(0xBE2612FF), 0xFF) == 0x00 && Xor(Down(0xBE2612FF), 0x00000000) == 0x00BE2612
    ensures Xor(Low(0x00BE2612), 0xFF) == 0xED && Xor(Down(0x00BE2612), 0xDEBB9EC5) == 0xDEBB20E3
    ensures Xor(0, 0xDEBB20E3) == 0xDEBB20E3 && Xor(0xDEBB20E3, ALL_ONES) == 0x2144DF1C
  {
  }

  lemma {:induction false} FeedFour(crc: bv32, b: seq<bv8>)
    requires |b| == 4
    ensures Feed(crc, b) == FeedByte(FeedByte(FeedByte(FeedByte(crc, b[0]), b[1]), b[2]), b[3])
  {
    hide FeedByte;
    FeedConcat(crc, b[..2], b[2..]);
    FeedConcat(crc, b[..1], b[1..2]);
    FeedConcat(FeedByte(FeedByte(crc, b[0]), b[1]), b[2..3], b[3..]);
    assert b == b[..2] + b[2..] && b[..2] == b[..1] + b[1..2] && b[2..] == b[2..3] + b[3..];
    assert b[..1] == [b[0]] && b[1..2] == [b[1]] && b[2..3] == [b[2]] && b[3..] == [b[3]];
    FeedOne(crc, b[0]);
    FeedOne(FeedByte(crc, b[0]), b[1]);
    FeedOne(FeedByte(FeedByte(crc, b[0]), b[1]), b[2]);
    FeedOne(FeedByte(FeedByte(FeedByte(crc, b[0]), b[1]), b[2]), b[3]);
  }

  /** Feeding a register its own complement leaves the same constant, whatever the register. */
  lemma {:induction false} CancelAll(r: bv32)
    ensures Feed(r, Bytes(Xor(r, ALL_ONES))) == 0xDEBB20E3
  {
    hide FeedByte, Feed, Shifts, Xor, Low, Down, ByteAt, LowByte;
    var r1, r2, r3 := Down(r), Down(Down(r)), Down(Down(Down(r)));
    FeedFour(r, Bytes(Xor(r, ALL_ONES)));
    DownBytes(r);
    Constants();
    XorZero(r);
    EntryFF();
    CancelRound(r, 0, 0x2D02EF8D);
    Entry72();
    CancelRound(r1, 0x2D02EF8D, 0xBE0B1010);
    Entry00();
    CancelRound(r2, 0xBE2612FF, 0x00000000);
    EntryED();
    CancelRound(r3, 0x00BE2612, 0xDEBB9EC5);
  }

  /** The residue of CRC-32: the CRC of any message with its own CRC behind it; and the CRC of
      nothing. Together they fix the polynomial's work, the preset and the complement. */
  lemma {:induction false} Residue(message: seq<bv8>)
    ensures Crc(message + Bytes(Crc(message))) == 0x2144DF1C
    ensures Crc([]) == 0
  {
    hide FeedByte, Shifts, Xor, Low, Down, ByteAt;
    var r := Feed(ALL_ONES, message);
    hide Feed;
    FeedConcat(ALL_ONES, message, Bytes(Crc(message)));
    CancelAll(r);
    Constants();
    NoBytes();
  }

  lemma NoBytes()
    ensures Xor(Feed(ALL_ONES, []), ALL_ONES) == 0
  {
  }
}
