/**
 CRC calculation by look-up table (src/crc/simple_crc.cpp). w is the width of the CRC: 8, 16 or 32.
 */
module SimpleCrc {
  import opened UInt
  import opened StreamSpec
  import opened CrcSpec

  predicate CrcWidth(w: nat) { w == 8 || w == 16 || w == 32 }

  /** t is the look-up table of a form and polynomial: entry i is what eight steps of the bit-serial register make of i. */
  ghost predicate IsTable(t: seq<nat>, f: Form, w: nat, p: nat)
    requires CrcWidth(w)
  {
    |t| == 256 && forall i: nat :: i < 256 ==> EntryIs(t[i], i, f, w, p)
  }

  ghost predicate EntryIs(v: nat, i: nat, f: Form, w: nat, p: nat)
    requires CrcWidth(w)
  {
    v < Pow2(w) && Reg(f, v, w) == Entry(Reg(f, i, 8), Reg(f, p, w))
  }

  // ---------------------------------------------------------------- one shift of a number

  lemma LowBits(v: nat, n: nat, w: nat)
    requires w <= n
    ensures ToBits(Low(v, n), w) == ToBits(v, w)
  {
    hide ToBits, Low, Shr;
    ToBitsLow(v, n, 0);
    assert ToBits(v, n) + [] == ToBits(v, n);
    ToBitsSplit(v, w, n - w);
    ToBitsSplit(Low(v, n), w, n - w);
    assert ToBits(v, n)[..w] == ToBits(v, w) && ToBits(Low(v, n), n)[..w] == ToBits(Low(v, n), w);
  }

  /** The bits of v, the most significant one first. */
  lemma TopBit(v: nat, w: nat)
    requires w > 0
    ensures Reg(Normal, v, w) == [Bit(v, w - 1)] + Reg(Normal, v, w - 1)
  {
    hide ToBits, Bit, Shr;
    ToBitsSplit(v, w - 1, 1);
    ToBitsAt(v, w, w - 1);
    var last := ToBits(Shr(v, w - 1), 1);
    assert last == [Bit(v, w - 1)] by { assert last[0] == ToBits(v, w)[w - 1]; }
    ReverseAppend(ToBits(v, w - 1), last);
    assert Reverse(last) == last by { assert last[1..] == []; }
  }

  lemma DoubledBits(v: nat, w: nat)
    requires w > 0
    ensures Reg(Normal, Shl(v, 1), w) == Reg(Normal, v, w - 1) + [false]
  {
    hide Reverse;
    assert Shl(v, 1) == 2 * v by { assert Shl(v, 0) == v; }
    assert ToBits(2 * v, w) == [false] + ToBits(v, w - 1);
    ReverseAppend([false], ToBits(v, w - 1));
    assert Reverse([false]) == [false] by { OneReversed(false); }
  }

  lemma OneReversed(b: bool)
    ensures Reverse([b]) == [b]
  {
    assert [b][1..] == [];
  }

  /** One round of the inner loop of Generate*Table_normal, on an unsigned type of n >= w bits. */
  function NormalRound(crc: nat, w: nat, n: nat, p: nat): nat
    requires w > 0
  {
    if And(crc, Shl(1, w - 1)) != 0 then Xor(Low(Shl(crc, 1), n), p) else Low(Shl(crc, 1), n)
  }

  lemma NormalRoundStep(crc: nat, w: nat, n: nat, p: nat)
    requires 0 < w <= n
    ensures Reg(Normal, NormalRound(crc, w, n, p), w) == Step(Reg(Normal, crc, w), Reg(Normal, p, w))
  {
    hide ToBits, Bit, Shl, And, Xor, Low, Reverse, Mirror, XorS;
    AndPower(crc, w - 1);
    TopBit(crc, w);
    DoubledBits(crc, w);
    LowBits(Shl(crc, 1), n, w);
    ShlPositive(w - 1);
    var reg := Reg(Normal, crc, w);
    assert reg[0] == Bit(crc, w - 1) && reg[1..] == Reg(Normal, crc, w - 1);
    RegXor(Normal, Low(Shl(crc, 1), n), p, w);
    NoXor(reg[1..] + [false]);
  }

  lemma NoXor(a: bits)
    ensures XorS(a, Zeros(|a|)) == a
  {
  }

  /** One round of the inner loop of Generate*Table_reflected. */
  function ReflectedRound(crc: nat, p: nat): nat
  {
    if And(crc, 1) != 0 then Xor(Shr(crc, 1), p) else Shr(crc, 1)
  }

  lemma ReflectedRoundStep(crc: nat, w: nat, p: nat)
    requires 0 < w && crc < Pow2(w) && p < Pow2(w)
    ensures Reg(Reflected, ReflectedRound(crc, p), w) == Step(Reg(Reflected, crc, w), Reg(Reflected, p, w))
    ensures ReflectedRound(crc, p) < Pow2(w)
  {
    hide ToBits, Bit, Shl, Shr, And, Xor, Low, Pow2, XorS;
    LowestBit(crc, w);
    ShiftedRight(crc, 1, w);
    XorRange(Shr(crc, 1), p, w);
    var reg := Reg(Reflected, crc, w);
    RegXor(Reflected, Shr(crc, 1), p, w);
    assert Zeros(1) == [false];
    NoXor(reg[1..] + [false]);
  }

  lemma LowestBit(v: nat, w: nat)
    requires w > 0
    ensures (And(v, 1) != 0) == ToBits(v, w)[0]
  {
    AndPower(v, 0);
  }

  lemma ShiftedRight(v: nat, k: nat, w: nat)
    requires v < Pow2(w) && k <= w
    ensures Shr(v, k) < Pow2(w) && ToBits(Shr(v, k), w) == ToBits(v, w)[k..] + Zeros(k)
  {
    hide ToBits, Shr, Low, Pow2;
    ToBitsSplit(v, k, w);
    LowId(v, w);
    ToBitsLow(v, w, k);
    assert ToBits(v, w + k) == ToBits(v, w) + Zeros(k);
    assert ToBits(Shr(v, k), w) == ToBits(v, k + w)[k..];
  }

  // ---------------------------------------------------------------- table generation

  lemma NormalStart(i: nat, w: nat)
    requires CrcWidth(w) && i < 256
    ensures Reg(Normal, Shl(i, w - 8), w) == Reg(Normal, i, 8) + Zeros(w - 8)
  {
    hide ToBits, Shl, Reverse;
    var k := w - 8;
    assert 0 < Pow2(k);
    ToBitsShl(0, i, k, 8);
    ZerosOf(k);
    ReverseAppend(Zeros(k), ToBits(i, 8));
    assert k + 8 == w;
  }

  lemma {:induction false} ZerosOf(n: nat)
    ensures ToBits(0, n) == Zeros(n) && Reverse(Zeros(n)) == Zeros(n)
    decreases n
  {
    if n > 0 {
      ZerosOf(n - 1);
      assert Zeros(n)[1..] == Zeros(n - 1);
      assert Zeros(n - 1) + [false] == Zeros(n);
    }
  }

  lemma ReflectedStart(i: nat, w: nat)
    requires CrcWidth(w) && i < 256
    ensures i < Pow2(w) && Reg(Reflected, i, w) == Reg(Reflected, i, 8) + Zeros(w - 8)
  {
    hide ToBits, Low;
    assert Pow2(8) == 256;
    Pow2Mono(8, w);
    LowId(i, 8);
    ToBitsLow(i, 8, w - 8);
  }

  /** GenerateCRC8/16/32Table_normal; the loop variable crc is an unsigned type of n >= w bits. */
  method GenerateTable_normal(w: nat, n: nat, forward_polynomial: nat, table: array<nat>)
    requires CrcWidth(w) && w <= n && forward_polynomial < Pow2(w) && table.Length == 256
    modifies table
    ensures IsTable(table[..], Normal, w, forward_polynomial)
  {
    hide ToBits, Shl, Low, Pow2, Reg, Steps, NormalRound, EntryIs;
    for i := 0 to 256
      invariant forall j: nat :: j < i ==> EntryIs(table[j], j, Normal, w, forward_polynomial)
    {
      var crc := NormalEntry(i, w, n, forward_polynomial);
      table[i] := crc;
    }
  }

  /** The inner loop. */
  method NormalEntry(i: nat, w: nat, n: nat, p: nat) returns (entry: nat)
    requires CrcWidth(w) && w <= n && p < Pow2(w) && i < 256
    ensures EntryIs(entry, i, Normal, w, p)
  {
    hide ToBits, Shl, Low, Pow2, Reg, Steps, And, Xor;
    var crc := Shl(i, w - 8);
    ghost var P := Reg(Normal, p, w);
    NormalStart(i, w);
    for j := 0 to 8
      invariant Steps(8 - j, Reg(Normal, crc, w), P) == Entry(Reg(Normal, i, 8), P)
    {
      OneMore(8 - j, Reg(Normal, crc, w), P);
      NormalRoundStep(crc, w, n, p);
      if And(crc, Shl(1, w - 1)) != 0 {
        crc := Xor(Low(Shl(crc, 1), n), p);
      } else {
        crc := Low(Shl(crc, 1), n);
      }
    }
    NoMore(Reg(Normal, crc, w), P);
    Stored(crc, w);
    entry := Low(crc, w);
  }

  lemma OneMore(n: nat, reg: bits, p: bits)
    requires n > 0 && |reg| == |p| > 0
    ensures Steps(n, reg, p) == Steps(n - 1, Step(reg, p), p)
  {
  }

  lemma NoMore(reg: bits, p: bits)
    requires |reg| == |p| > 0
    ensures Steps(0, reg, p) == reg
  {
  }

  /** Storing a wider register in a table of w-bit entries. */
  lemma Stored(v: nat, w: nat)
    ensures Reg(Normal, Low(v, w), w) == Reg(Normal, v, w)
  {
    hide ToBits, Low;
    LowBits(v, w, w);
  }

  /** GenerateCRC8/16/32Table_reflected. */
  method GenerateTable_reflected(w: nat, reverse_polynomial: nat, table: array<nat>)
    requires CrcWidth(w) && reverse_polynomial < Pow2(w) && table.Length == 256
    modifies table
    ensures IsTable(table[..], Reflected, w, reverse_polynomial)
  {
    hide ToBits, Shl, Low, Pow2, Reg, Steps, EntryIs;
    for i := 0 to 256
      invariant forall j: nat :: j < i ==> EntryIs(table[j], j, Reflected, w, reverse_polynomial)
    {
      var crc := ReflectedEntry(i, w, reverse_polynomial);
      table[i] := crc;
    }
  }

  method ReflectedEntry(i: nat, w: nat, p: nat) returns (crc: nat)
    requires CrcWidth(w) && p < Pow2(w) && i < 256
    ensures EntryIs(crc, i, Reflected, w, p)
  {
    hide ToBits, Shr, Low, Pow2, Reg, Steps, And, Xor;
    crc := i;
    ghost var P := Reg(Reflected, p, w);
    ReflectedStart(i, w);
    for j := 0 to 8
      invariant crc < Pow2(w) && Steps(8 - j, Reg(Reflected, crc, w), P) == Entry(Reg(Reflected, i, 8), P)
    {
      OneMore(8 - j, Reg(Reflected, crc, w), P);
      ReflectedRoundStep(crc, w, p);
      if And(crc, 1) != 0 {
        crc := Xor(Shr(crc, 1), p);
      } else {
        crc := Shr(crc, 1);
      }
    }
    NoMore(Reg(Reflected, crc, w), P);
  }

  // ---------------------------------------------------------------- including data in a checksum

  /** The data byte as the functions use it: ReverseBits8 is a look-up that reverses the bits of a byte. */
  function InputByte(c: byte, reverse: bool): (r: nat)
    ensures r < 256
  {
    assert Pow2(8) == 256;
    if reverse then ReverseBits(c, 8) else c
  }

  lemma InputBits(f: Form, c: byte, reverse: bool)
    ensures Reg(f, InputByte(c, reverse), 8) == ByteBits(f, c, reverse)
  {
    hide ToBits, Reverse, FromBits;
    if reverse {
      RegDual(c, 8);
      ToFromBits(Reverse(ToBits(c, 8)));
      ReverseTwice(ToBits(c, 8));
    }
  }

  /** The table index and the rest of the register. */
  lemma NormalParts(crc: nat, w: nat)
    requires CrcWidth(w) && crc < Pow2(w)
    ensures Shr(crc, w - 8) < 256
    ensures Reg(Normal, crc, w)[..8] == Reg(Normal, Shr(crc, w - 8), 8)
    ensures Reg(Normal, Low(Shl(crc, 8), w), w) == Reg(Normal, crc, w)[8..] + Zeros(8)
  {
    hide ToBits, Shl, Shr, Low, Reverse;
    var k := w - 8;
    assert Pow2(8) == 256;
    ShrRange(crc, 8, k);
    ToBitsSplit(crc, k, 8);
    ReverseAppend(ToBits(crc, k), ToBits(Shr(crc, k), 8));
    LowBits(Shl(crc, 8), w, w);
    ToBitsShl(0, crc, 8, k);
    ZerosOf(8);
    ReverseAppend(Zeros(8), ToBits(crc, k));
    assert k + 8 == w && 8 + k == w;
  }

  lemma ReflectedParts(crc: nat, w: nat)
    requires CrcWidth(w) && crc < Pow2(w)
    ensures Low(crc, 8) < 256
    ensures Reg(Reflected, crc, w)[..8] == Reg(Reflected, Low(crc, 8), 8)
    ensures Shr(crc, 8) < Pow2(w) && Reg(Reflected, Shr(crc, 8), w) == Reg(Reflected, crc, w)[8..] + Zeros(8)
  {
    hide ToBits, Shr, Low;
    assert Pow2(8) == 256;
    LowBits(crc, 8, 8);
    ToBitsSplit(crc, 8, w - 8);
    ShiftedRight(crc, 8, w);
  }

  /** One byte more, from the table. */
  lemma ByteIncluded(f: Form, w: nat, p: nat, crc: nat, c: byte, reverse: bool, index: nat, rest: nat, entry: nat)
    requires CrcWidth(w) && EntryIs(entry, Xor(index, InputByte(c, reverse)), f, w, p) && rest < Pow2(w)
    requires Reg(f, crc, w)[..8] == Reg(f, index, 8) && Reg(f, rest, w) == Reg(f, crc, w)[8..] + Zeros(8)
    ensures Xor(rest, entry) < Pow2(w) && Xor(rest, entry) == Crc(f, w, p, crc, [c], reverse)
  {
    hide ToBits, Pow2, Reg, Steps, Feed, XorS, Xor, InputByte, ByteBits, Value;
    var d := InputByte(c, reverse);
    InputBits(f, c, reverse);
    RegXor(f, index, d, 8);
    OneByteMessage(f, c, reverse);
    FeedByte(Reg(f, crc, w), ByteBits(f, c, reverse), Reg(f, p, w));
    RegXor(f, rest, entry, w);
    XorRange(rest, entry, w);
    RegValue(f, Xor(rest, entry), w);
    XorSwap(Reg(f, rest, w), Reg(f, entry, w));
  }

  lemma XorSwap(a: bits, b: bits)
    requires |a| == |b|
    ensures XorS(a, b) == XorS(b, a)
  {
  }

  lemma OneByteMessage(f: Form, c: byte, reverse: bool)
    ensures MsgBits(f, [c], reverse) == ByteBits(f, c, reverse)
  {
    hide ByteBits;
    assert [c][1..] == [];
    assert MsgBits(f, [], reverse) == [];
  }

  /** CalcCRC8_noInputReverse and CalcCRC8_withInputReverse for one byte; the table may have either form. */
  method CalcCrc8(crc: nat, data: byte, table: array<nat>, reverse: bool, ghost f: Form, ghost p: nat) returns (r: nat)
    requires crc < 256 && IsTable(table[..], f, 8, p)
    ensures r < 256 && r == Crc(f, 8, p, crc, [data], reverse)
  {
    hide ToBits, Reg, Crc, Xor, InputByte, EntryIs, Pow2;
    assert Pow2(8) == 256 by { EightBits(); }
    XorRange(crc, InputByte(data, reverse), 8);
    r := table[Xor(crc, InputByte(data, reverse))];
    NothingLeft(f, crc);
    ByteIncluded(f, 8, p, crc, data, reverse, crc, 0, r);
    assert Xor(0, r) == r by { XorNothing(r); }
  }

  lemma EightBits()
    ensures Pow2(8) == 256
  {
  }

  lemma XorNothing(v: nat)
    ensures Xor(0, v) == v
  {
  }

  lemma NothingLeft(f: Form, crc: nat)
    ensures Reg(f, crc, 8)[..8] == Reg(f, crc, 8) && Reg(f, 0, 8) == Reg(f, crc, 8)[8..] + Zeros(8)
  {
    hide ToBits, Reverse;
    ZerosOf(8);
  }

  /** CalcCRC16/32_normal_noInputReverse and _withInputReverse for one byte. */
  method CalcCrc_normal(w: nat, crc: nat, data: byte, table: array<nat>, reverse: bool, ghost p: nat) returns (r: nat)
    requires CrcWidth(w) && crc < Pow2(w) && IsTable(table[..], Normal, w, p)
    ensures r < Pow2(w) && r == Crc(Normal, w, p, crc, [data], reverse)
  {
    hide ToBits, Reg, Crc, Xor, InputByte, Pow2, Shl, Shr, Low;
    NormalParts(crc, w);
    assert Pow2(8) == 256 by { EightBits(); }
    XorRange(Shr(crc, w - 8), InputByte(data, reverse), 8);
    var entry := table[Xor(Shr(crc, w - 8), InputByte(data, reverse))];
    r := Low(Xor(Shl(crc, 8), entry), w);
    ByteIncluded(Normal, w, p, crc, data, reverse, Shr(crc, w - 8), Low(Shl(crc, 8), w), entry);
    LowXor(Shl(crc, 8), entry, w);
  }

  lemma {:induction false} LowXor(a: nat, b: nat, w: nat)
    requires b < Pow2(w)
    ensures Low(Xor(a, b), w) == Xor(Low(a, w), b)
    decreases w
  {
    if w > 0 {
      LowXor(a / 2, b / 2, w - 1);
      XorFirst(a, b);
      XorFirst(Low(a, w), b);
    }
  }

  /** CalcCRC16/32_reflected_noInputReverse and _withInputReverse for one byte. */
  method CalcCrc_reflected(w: nat, crc: nat, data: byte, table: array<nat>, reverse: bool, ghost p: nat) returns (r: nat)
    requires CrcWidth(w) && crc < Pow2(w) && IsTable(table[..], Reflected, w, p)
    ensures r < Pow2(w) && r == Crc(Reflected, w, p, crc, [data], reverse)
  {
    hide ToBits, Reg, Crc, Xor, InputByte, Pow2, Shl, Shr, Low;
    ReflectedParts(crc, w);
    assert Pow2(8) == 256 by { EightBits(); }
    XorRange(Low(crc, 8), InputByte(data, reverse), 8);
    var entry := table[Xor(Low(crc, 8), InputByte(data, reverse))];
    r := Xor(Shr(crc, 8), entry);
    ByteIncluded(Reflected, w, p, crc, data, reverse, Low(crc, 8), Shr(crc, 8), entry);
  }

  /** The functions that include a chunk of bytes. */
  method CalcCrcChunk(f: Form, w: nat, crc0: nat, data: seq<byte>, table: array<nat>, reverse: bool, ghost p: nat)
    returns (crc: nat)
    requires CrcWidth(w) && crc0 < Pow2(w) && IsTable(table[..], f, w, p)
    ensures crc < Pow2(w) && crc == Crc(f, w, p, crc0, data, reverse)
  {
    hide IsTable, Crc, Pow2;
    crc := crc0;
    EmptyMessage(f, w, p, crc, reverse);
    var i := 0;
    assert data[..0] == [];
    while i < |data|
      invariant i <= |data| && crc < Pow2(w) && crc == Crc(f, w, p, crc0, data[..i], reverse)
    {
      Chunks(f, w, p, crc0, data[..i], [data[i]], reverse);
      assert data[..i] + [data[i]] == data[..i + 1];
      if w == 8 {
        assert Pow2(8) == 256 by { EightBits(); }
        crc := CalcCrc8(crc, data[i], table, reverse, f, p);
      } else if f == Normal {
        crc := CalcCrc_normal(w, crc, data[i], table, reverse, p);
      } else {
        crc := CalcCrc_reflected(w, crc, data[i], table, reverse, p);
      }
      i := i + 1;
    }
    assert data[..i] == data;
  }

  lemma EmptyMessage(f: Form, w: nat, p: nat, crc: nat, reverse: bool)
    requires w > 0 && crc < Pow2(w)
    ensures Crc(f, w, p, crc, [], reverse) == crc
  {
    hide Reg, Value;
    RegValue(f, crc, w);
    assert MsgBits(f, [], reverse) == [];
  }
}
