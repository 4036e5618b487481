/**
 A known answer of RFC 1321, section A.5. Bitwise operators are evaluated on 32-bit vectors.
 */
module Md5KnownAnswer {
  import opened UInt
  import opened StreamSpec
  import opened WordBits
  import opened Md5Spec

  // ---------------------------------------------------------------- words as bit vectors

  function Odd(x: bv32): bool { x & 1 != 0 }
  function Half(x: bv32): bv32 { x >> 1 }
  function NextByte(x: bv32): bv32 { x >> 8 }
  function Both(x: bv32, y: bv32): bv32 { x & y }
  function Either(x: bv32, y: bv32): bv32 { x | y }
  function Differ(x: bv32, y: bv32): bv32 { x ^ y }

  /** The number that the n low bits of x are. */
  function N(n: nat, x: bv32): nat
  {
    if n == 0 then 0 else B2N(Odd(x)) + 2 * N(n - 1, Half(x))
  }

  function Byte(x: bv32): byte
  {
    (if x & 1 != 0 then 1 else 0) + (if x & 2 != 0 then 2 else 0) + (if x & 4 != 0 then 4 else 0)
    + (if x & 8 != 0 then 8 else 0) + (if x & 16 != 0 then 16 else 0) + (if x & 32 != 0 then 32 else 0)
    + (if x & 64 != 0 then 64 else 0) + if x & 128 != 0 then 128 else 0
  }

  function Joined(a: byte, b: byte, c: byte, d: byte): word { a + 256 * (b + 256 * (c + 256 * d)) }

  /** The number that x is. */
  function Num(x: bv32): word
  {
    Joined(Byte(x), Byte(NextByte(x)), Byte(NextByte(NextByte(x))), Byte(NextByte(NextByte(NextByte(x)))))
  }

  lemma Unfold(n: nat, x: bv32)
    ensures N(n + 1, x) == B2N(Odd(x)) + 2 * N(n, Half(x))
  {
  }

  lemma EightBits(n: nat, x: bv32)
    ensures N(n + 8, x) == Byte(x) + 256 * N(n, NextByte(x))
  {
    hide N, Odd, Half, Byte, NextByte;
    var x1 := Half(x);
    var x2 := Half(x1);
    var x3 := Half(x2);
    var x4 := Half(x3);
    var x5 := Half(x4);
    var x6 := Half(x5);
    var x7 := Half(x6);
    Unfold(n + 7, x);
    Unfold(n + 6, x1);
    Unfold(n + 5, x2);
    Unfold(n + 4, x3);
    Unfold(n + 3, x4);
    Unfold(n + 2, x5);
    Unfold(n + 1, x6);
    Unfold(n, x7);
    ByteIs(x, x1, x2, x3, x4, x5, x6, x7);
  }

  lemma ByteIs(x: bv32, x1: bv32, x2: bv32, x3: bv32, x4: bv32, x5: bv32, x6: bv32, x7: bv32)
    requires x1 == Half(x) && x2 == Half(x1) && x3 == Half(x2) && x4 == Half(x3) && x5 == Half(x4) && x6 == Half(x5) && x7 == Half(x6)
    ensures Half(x7) == NextByte(x)
    ensures Byte(x) == B2N(Odd(x)) + 2 * B2N(Odd(x1)) + 4 * B2N(Odd(x2)) + 8 * B2N(Odd(x3))
                       + 16 * B2N(Odd(x4)) + 32 * B2N(Odd(x5)) + 64 * B2N(Odd(x6)) + 128 * B2N(Odd(x7))
  {
    hide Odd, Half, NextByte;
    Places(x);
  }

  lemma Places(x: bv32)
    ensures (x & 1 != 0) == Odd(x) && (x & 2 != 0) == Odd(Half(x)) && (x & 4 != 0) == Odd(Half(Half(x)))
    ensures (x & 8 != 0) == Odd(Half(Half(Half(x)))) && (x & 16 != 0) == Odd(Half(Half(Half(Half(x)))))
    ensures (x & 32 != 0) == Odd(Half(Half(Half(Half(Half(x))))))
    ensures (x & 64 != 0) == Odd(Half(Half(Half(Half(Half(Half(x)))))))
    ensures (x & 128 != 0) == Odd(Half(Half(Half(Half(Half(Half(Half(x))))))))
    ensures Half(Half(Half(Half(Half(Half(Half(Half(x)))))))) == NextByte(x)
  {
    hide Odd, Half, NextByte;
    var y := Half(Half(Half(Half(x))));
    LowPlaces(x);
    LowPlaces(y);
    HighPlaces(x);
  }

  lemma LowPlaces(x: bv32)
    ensures (x & 1 != 0) == Odd(x) && (x & 2 != 0) == Odd(Half(x)) && (x & 4 != 0) == Odd(Half(Half(x)))
    ensures (x & 8 != 0) == Odd(Half(Half(Half(x))))
  {
  }

  lemma HighPlaces(x: bv32)
    ensures var y := Half(Half(Half(Half(x))));
            && (x & 16 != 0) == (y & 1 != 0) && (x & 32 != 0) == (y & 2 != 0)
            && (x & 64 != 0) == (y & 4 != 0) && (x & 128 != 0) == (y & 8 != 0)
    ensures Half(Half(Half(Half(Half(Half(Half(Half(x)))))))) == NextByte(x)
  {
  }

  lemma NumIs(x: bv32)
    ensures N(32, x) == Num(x)
  {
    hide N, Byte, NextByte;
    var y := NextByte(x);
    var z := NextByte(y);
    EightBits(24, x);
    EightBits(16, y);
    EightBits(8, z);
    EightBits(0, NextByte(z));
    NoBits(NextByte(NextByte(z)));
  }

  lemma NoBits(x: bv32)
    ensures N(0, x) == 0
  {
  }

  // ---------------------------------------------------------------- operators

  lemma Parity(n: nat, x: bv32)
    ensures n > 0 ==> N(n, x) / 2 == N(n - 1, Half(x)) && (N(n, x) % 2 == 1) == Odd(x)
    ensures n == 0 ==> N(n, x) == 0
  {
  }

  lemma HalfOfBoth(x: bv32, y: bv32)
    ensures Half(Both(x, y)) == Both(Half(x), Half(y)) && Odd(Both(x, y)) == (Odd(x) && Odd(y))
  {
  }

  lemma HalfOfEither(x: bv32, y: bv32)
    ensures Half(Either(x, y)) == Either(Half(x), Half(y)) && Odd(Either(x, y)) == (Odd(x) || Odd(y))
  {
  }

  lemma HalfOfDiffer(x: bv32, y: bv32)
    ensures Half(Differ(x, y)) == Differ(Half(x), Half(y)) && Odd(Differ(x, y)) == (Odd(x) != Odd(y))
  {
  }

  lemma Steps(a: nat, b: nat)
    ensures And(a, b) == B2N(a % 2 == 1 && b % 2 == 1) + 2 * And(a / 2, b / 2)
    ensures Or(a, b) == B2N(a % 2 == 1 || b % 2 == 1) + 2 * Or(a / 2, b / 2)
    ensures Xor(a, b) == B2N((a % 2 == 1) != (b % 2 == 1)) + 2 * Xor(a / 2, b / 2)
    ensures And(0, 0) == Or(0, 0) == Xor(0, 0) == 0
  {
    assert And(0, b / 2) == 0 && And(a / 2, 0) == 0;
    assert Or(0, b / 2) == b / 2 && Or(a / 2, 0) == a / 2;
    assert Xor(0, b / 2) == b / 2 && Xor(a / 2, 0) == a / 2;
  }

  lemma {:induction false} Bitwise(n: nat, x: bv32, y: bv32)
    ensures And(N(n, x), N(n, y)) == N(n, Both(x, y))
    ensures Or(N(n, x), N(n, y)) == N(n, Either(x, y))
    ensures Xor(N(n, x), N(n, y)) == N(n, Differ(x, y))
  {
    hide N, And, Or, Xor, Both, Either, Differ, Half, Odd;
    Parity(n, x);
    Parity(n, y);
    Parity(n, Both(x, y));
    Parity(n, Either(x, y));
    Parity(n, Differ(x, y));
    Steps(N(n, x), N(n, y));
    if n > 0 {
      HalfOfBoth(x, y);
      HalfOfEither(x, y);
      HalfOfDiffer(x, y);
      Bitwise(n - 1, Half(x), Half(y));
      WholeOf(n, Both(x, y));
      WholeOf(n, Either(x, y));
      WholeOf(n, Differ(x, y));
    }
  }

  lemma WholeOf(n: nat, x: bv32)
    requires n > 0
    ensures N(n, x) == B2N(Odd(x)) + 2 * N(n - 1, Half(x))
  {
  }

  lemma WordNum(x: bv32, y: bv32)
    ensures WAnd(Num(x), Num(y)) == Num(Both(x, y))
    ensures WOr(Num(x), Num(y)) == Num(Either(x, y))
    ensures WXor(Num(x), Num(y)) == Num(Differ(x, y))
  {
    hide Num, N, And, Or, Xor, Both, Either, Differ;
    Bitwise(32, x, y);
    NumIs(x);
    NumIs(y);
    NumIs(Both(x, y));
    NumIs(Either(x, y));
    NumIs(Differ(x, y));
  }

  lemma {:induction false} NotIsXor(a: nat, w: nat)
    requires a < Pow2(w)
    ensures Xor(a, Pow2(w) - 1) == Not(a, w)
    decreases w
  {
    hide Xor;
    Steps(a, Pow2(w) - 1);
    if w > 0 { NotIsXor(a / 2, w - 1); }
  }

  lemma NotNum(x: bv32)
    ensures WNot(Num(x)) == Num(Differ(x, 0xFFFF_FFFF))
  {
    hide Num, Xor, Differ, Not, Pow2;
    WordRange();
    NotIsXor(Num(x), W);
    WordNum(x, 0xFFFF_FFFF);
    AllOnesNum();
  }

  lemma AllOnesNum()
    ensures Num(0xFFFF_FFFF) == 0xFFFF_FFFF
  {
  }

  function AuxiliaryBv(n: nat, x: bv32, y: bv32, z: bv32): bv32
  {
    var ones: bv32 := 0xFFFF_FFFF;
    if n < 16 then Either(Both(x, y), Both(Differ(x, ones), z))
    else if n < 32 then Either(Both(x, z), Both(y, Differ(z, ones)))
    else if n < 48 then Differ(Differ(x, y), z)
    else Differ(y, Either(x, Differ(z, ones)))
  }

  lemma AuxiliaryNum(n: nat, x: bv32, y: bv32, z: bv32)
    ensures Auxiliary(n, Num(x), Num(y), Num(z)) == Num(AuxiliaryBv(n, x, y, z))
  {
    hide Num, F, G, H, I, Both, Either, Differ;
    FNum(x, y, z);
    GNum(x, y, z);
    HNum(x, y, z);
    INum(x, y, z);
  }

  lemma FNum(x: bv32, y: bv32, z: bv32)
    ensures F(Num(x), Num(y), Num(z)) == Num(Either(Both(x, y), Both(Differ(x, 0xFFFF_FFFF), z)))
  {
    hide Num, WAnd, WOr, WXor, WNot, Both, Either, Differ;
    var nx := Differ(x, 0xFFFF_FFFF);
    NotNum(x);
    WordNum(x, y);
    WordNum(nx, z);
    WordNum(Both(x, y), Both(nx, z));
  }

  lemma GNum(x: bv32, y: bv32, z: bv32)
    ensures G(Num(x), Num(y), Num(z)) == Num(Either(Both(x, z), Both(y, Differ(z, 0xFFFF_FFFF))))
  {
    hide Num, WAnd, WOr, WXor, WNot, Both, Either, Differ;
    var nz := Differ(z, 0xFFFF_FFFF);
    NotNum(z);
    WordNum(x, z);
    WordNum(y, nz);
    WordNum(Both(x, z), Both(y, nz));
  }

  lemma HNum(x: bv32, y: bv32, z: bv32)
    ensures H(Num(x), Num(y), Num(z)) == Num(Differ(Differ(x, y), z))
  {
    hide Num, WAnd, WOr, WXor, WNot, Both, Either, Differ;
    WordNum(x, y);
    WordNum(Differ(x, y), z);
  }

  lemma INum(x: bv32, y: bv32, z: bv32)
    ensures I(Num(x), Num(y), Num(z)) == Num(Differ(y, Either(x, Differ(z, 0xFFFF_FFFF))))
  {
    hide Num, WAnd, WOr, WXor, WNot, Both, Either, Differ;
    var nz := Differ(z, 0xFFFF_FFFF);
    NotNum(z);
    WordNum(x, nz);
    WordNum(y, Either(x, nz));
  }

  // ---------------------------------------------------------------- rotation

  function Product(a: nat, b: nat): nat { a * b }

  /** v rotated by s, by division; high is 2 to the power of 32 - s, and low 2 to the power of s. */
  function Rotated(v: word, high: nat, low: nat): nat
    requires high > 0
  {
    v / high + Product(v % high, low)
  }

  lemma RotatedIs(v: word, s: nat)
    requires 0 < s < 32
    ensures CircularShift(v, s) == Rotated(v, Pow2(32 - s), Pow2(s))
  {
    hide ToBits, FromBits, Pow2, Shl, Shr, Low;
    WordRange();
    var b, m := ToBits(v, 32), 32 - s;
    ToBitsSplit(v, m, s);
    assert b[..m] == ToBits(v, m) && b[m..] == ToBits(Shr(v, m), s);
    FromBitsAppend(b[m..], b[..m]);
    FromToBits(v, m);
    FromToBits(Shr(v, m), s);
    ShrRange(v, s, m);
    LowId(Shr(v, m), s);
    ShiftMeaning(Low(v, m), s);
    ShiftMeaning(v, m);
    DivUnique(v, Shr(v, m), Pow2(m), Low(v, m));
    Remainder(v, Shr(v, m), Pow2(m), Low(v, m));
  }

  lemma Remainder(v: nat, q: nat, p: nat, r: nat)
    requires p > 0 && v == q * p + r && v / p == q
    ensures v % p == r
  {
  }

  lemma Powers()
    ensures Pow2(4) == 0x10 && Pow2(5) == 0x20 && Pow2(6) == 0x40 && Pow2(7) == 0x80
    ensures Pow2(9) == 0x200 && Pow2(10) == 0x400 && Pow2(11) == 0x800 && Pow2(12) == 0x1000
    ensures Pow2(14) == 0x4000 && Pow2(15) == 0x8000 && Pow2(16) == 0x1_0000 && Pow2(17) == 0x2_0000 && Pow2(18) == 0x4_0000
    ensures Pow2(20) == 0x10_0000 && Pow2(21) == 0x20_0000 && Pow2(22) == 0x40_0000 && Pow2(23) == 0x80_0000
    ensures Pow2(25) == 0x200_0000 && Pow2(26) == 0x400_0000 && Pow2(27) == 0x800_0000 && Pow2(28) == 0x1000_0000
  {
    assert Pow2(4) == 16;
    Pow2Byte(4);
    Pow2Byte(12);
    Pow2Byte(20);
    assert Pow2(16) == 2 * Pow2(15) == 4 * Pow2(14) == 8 * Pow2(13);
    assert Pow2(20) == 2 * Pow2(19) == 4 * Pow2(18) == 8 * Pow2(17);
    assert Pow2(28) == 2 * Pow2(27) == 4 * Pow2(26) == 8 * Pow2(25);
    assert Pow2(23) == 2 * Pow2(22) == 4 * Pow2(21) == 8 * Pow2(20);
    assert Pow2(12) == 2 * Pow2(11) == 4 * Pow2(10) == 8 * Pow2(9);
    assert Pow2(7) == 2 * Pow2(6) == 4 * Pow2(5) == 8 * Pow2(4);
  }

  // ---------------------------------------------------------------- one block

  /** The lower-case letters of the alphabet. */
  function Letters(): (r: seq<byte>)
    ensures |r| == 26 && forall i :: 0 <= i < 26 ==> r[i] == 97 + i
  {
    seq(26, i requires 0 <= i < 26 => 97 + i)
  }

  function Block(): (r: seq<byte>)
    ensures |r| == 64
  {
    Size();
    Padded(Letters())
  }

  lemma Size()
    ensures |Padded(Letters())| == 64
  {
    hide LeBytes, Zeros8;
    PaddedSize(Letters());
  }

  lemma BlockAt(j: nat)
    requires j < 64
    ensures Block()[j] == ByteAt(j)
  {
    hide Letters, Zeros8, LeBytes, ZeroBytes;
    LengthBytes();
    assert ZeroBytes(26) == 29 by { TwentyNine(); }
  }

  lemma TwentyNine()
    ensures ZeroBytes(26) == 29
  {
  }

  lemma LengthBytes()
    ensures forall i :: 0 <= i < 8 ==> LeBytes(208, 8)[i] == if i == 0 then 208 else 0
  {
    assert LeBytes(208, 8) == [208] + LeBytes(0, 7);
    NoMoreBytes(7);
  }

  lemma {:induction false} NoMoreBytes(k: nat)
    ensures forall i :: 0 <= i < k ==> LeBytes(0, k)[i] == 0
  {
    if k > 0 { NoMoreBytes(k - 1); }
  }

  /** The bytes of the block. */
  function ByteAt(j: nat): byte { if j < 26 then 97 + j else if j == 26 then 0x80 else if j == 56 then 208 else 0 }

  /** Its words. */
  function WordOf(k: nat): nat
  {
    if k < 6 then 0x6463_6261 + 0x404_0404 * k else if k == 6 then 0x80_7a79 else if k == 14 then 208 else 0
  }

  lemma Words()
    ensures forall k: nat :: k < 16 ==> X(Block(), k) == WordOf(k)
  {
    hide Block, LeValue, X;
    forall k: nat | k < 16 ensures X(Block(), k) == WordOf(k) { WordIs(k); }
  }

  lemma WordIs(k: nat)
    requires k < 16
    ensures X(Block(), k) == WordOf(k)
  {
    hide Block, LeValue;
    FourBytes(Block()[4 * k..4 * k + 4]);
    BlockAt(4 * k);
    BlockAt(4 * k + 1);
    BlockAt(4 * k + 2);
    BlockAt(4 * k + 3);
  }

  lemma FourBytes(d: seq<byte>)
    requires |d| == 4
    ensures LeValue(d) == Joined(d[0], d[1], d[2], d[3])
  {
    assert LeValue(d) == d[0] + 256 * LeValue(d[1..]);
    assert LeValue(d[1..]) == d[1] + 256 * LeValue(d[2..]);
    assert LeValue(d[2..]) == d[2] + 256 * LeValue(d[3..]);
    assert LeValue(d[3..]) == d[3] + 256 * LeValue(d[4..]);
  }

  /** The registers in the parts they play in operation n. */
  ghost predicate Roles(n: nat, a: bv32, b: bv32, c: bv32, d: bv32)
  {
    n <= 64
    && var r, i := Operations(n, Initial, Block()), First(n);
       r[i] == Num(a) && r[(i + 1) % 4] == Num(b) && r[(i + 2) % 4] == Num(c) && r[(i + 3) % 4] == Num(d)
  }

  lemma Start()
    ensures Roles(0, 0x6745_2301, 0xEFCD_AB89, 0x98BA_DCFE, 0x1032_5476)
  {
    hide Block;
    assert First(0) == 0;
    assert Operations(0, Initial, Block()) == Initial;
  }

  /** The 32 low bits of a sum of up to four words. */
  function Wrapped(s: nat): nat
  {
    if s >= 0x3_0000_0000 then s - 0x3_0000_0000
    else if s >= 0x2_0000_0000 then s - 0x2_0000_0000
    else if s >= 0x1_0000_0000 then s - 0x1_0000_0000
    else s
  }

  /** Operation n: what is to be rotated, and the result. */
  lemma Step(n: nat, a: bv32, b: bv32, c: bv32, d: bv32, sum: word, high: nat, low: nat, v: bv32)
    requires n < 64 && Roles(n, a, b, c, d)
    requires Wrapped(Num(a) + Num(AuxiliaryBv(n, b, c, d)) + X(Block(), K(n)) + T[n]) == sum
    requires Pow2(32 - S(n)) == high > 0 && Pow2(S(n)) == low
    requires Wrapped(Num(b) + Rotated(sum, high, low)) == Num(v)
    ensures Roles(n + 1, d, v, b, c)
  {
    hide Num, AuxiliaryBv, Auxiliary, CircularShift, Rotated, X, K, S, Block, First, Pow2, Initial, Wrapped, Plus;
    AuxiliaryNum(n, b, c, d);
    RotatedIs(sum, S(n));
    NextRole(n);
    Wraps(Num(a), Num(AuxiliaryBv(n, b, c, d)), X(Block(), K(n)), T[n]);
    Wraps(Num(b), Rotated(sum, high, low), 0, 0);
  }

  lemma Wraps(a: word, b: word, c: word, d: word)
    ensures Plus(Plus(Plus(a, b), c), d) == Wrapped(a + b + c + d)
    ensures Plus(Plus(Plus(a, b), 0), 0) == Plus(a, b)
  {
    WrapsOnce(a, b);
    WrapsOnce(Plus(a, b), c);
    WrapsOnce(Plus(Plus(a, b), c), d);
  }

  lemma WrapsOnce(a: word, b: word)
    ensures Plus(a, b) == if a + b >= 0x1_0000_0000 then a + b - 0x1_0000_0000 else a + b
  {
  }

  lemma NextRole(n: nat)
    ensures var i, j := First(n), First(n + 1);
            j == (i + 3) % 4 && (j + 1) % 4 == i && (j + 2) % 4 == (i + 1) % 4 && (j + 3) % 4 == (i + 2) % 4
  {
    NextRest(n);
    RolesOf(n % 4);
  }

  lemma NextRest(n: nat)
    ensures (n + 1) % 4 == if n % 4 == 3 then 0 else n % 4 + 1
  {
  }

  lemma RolesOf(r: nat)
    requires r < 4
    ensures var i, j := (4 - r) % 4, (4 - if r == 3 then 0 else r + 1) % 4;
            j == (i + 3) % 4 && (j + 1) % 4 == i && (j + 2) % 4 == (i + 1) % 4 && (j + 3) % 4 == (i + 2) % 4
  {
    assert r == 0 || r == 1 || r == 2 || r == 3;
  }

  lemma Operations1And2()
    ensures Roles(2, 0x98ba_dcfe, 0xaab1_aaaa, 0xd6d1_17a6, 0xefcd_ab89)
  {
    hide Roles, Operations, Pow2, X, Block;
    Powers();
    Words();
    Start();
    Step(0, 0x6745_2301, 0xefcd_ab89, 0x98ba_dcfe, 0x1032_5476, 0x3bce_06d8, 0x200_0000, 0x80, 0xd6d1_17a6);
    Step(1, 0x1032_5476, 0xd6d1_17a6, 0xefcd_ab89, 0x98ba_dcfe, 0x304d_3e09, 0x10_0000, 0x1000, 0xaab1_aaaa);
  }

  lemma Operations3And4()
    requires Roles(2, 0x98ba_dcfe, 0xaab1_aaaa, 0xd6d1_17a6, 0xefcd_ab89)
    ensures Roles(4, 0xd6d1_17a6, 0x4503_b812, 0x227d_8cf1, 0xaab1_aaaa)
  {
    hide Roles, Operations, Pow2, X, Block;
    Powers();
    Words();
    Step(2, 0x98ba_dcfe, 0xaab1_aaaa, 0xd6d1_17a6, 0xefcd_ab89, 0xf123_bbe5, 0x8000, 0x2_0000, 0x227d_8cf1);
    Step(3, 0xefcd_ab89, 0x227d_8cf1, 0xaab1_aaaa, 0xd6d1_17a6, 0x18ac_848a, 0x400, 0x40_0000, 0x4503_b812);
  }

  lemma Operations5And6()
    requires Roles(4, 0xd6d1_17a6, 0x4503_b812, 0x227d_8cf1, 0xaab1_aaaa)
    ensures Roles(6, 0x227d_8cf1, 0xa811_b278, 0xfe15_f787, 0x4503_b812)
  {
    hide Roles, Operations, Pow2, X, Block;
    Powers();
    Words();
    Step(4, 0xd6d1_17a6, 0x4503_b812, 0x227d_8cf1, 0xaab1_aaaa, 0xeb72_247e, 0x200_0000, 0x80, 0xfe15_f787);
    Step(5, 0xaab1_aaaa, 0xfe15_f787, 0x4503_b812, 0x227d_8cf1, 0xaf1a_9fbb, 0x10_0000, 0x1000, 0xa811_b278);
  }

  lemma Operations7And8()
    requires Roles(6, 0x227d_8cf1, 0xa811_b278, 0xfe15_f787, 0x4503_b812)
    ensures Roles(8, 0xfe15_f787, 0xda9b_bb0d, 0xb711_22fc, 0xa811_b278)
  {
    hide Roles, Operations, Pow2, X, Block;
    Powers();
    Words();
    Step(6, 0x227d_8cf1, 0xa811_b278, 0xfe15_f787, 0x4503_b812, 0xb842_077f, 0x8000, 0x2_0000, 0xb711_22fc);
    Step(7, 0x4503_b812, 0xb711_22fc, 0xa811_b278, 0xfe15_f787, 0x2a60_448e, 0x400, 0x40_0000, 0xda9b_bb0d);
  }

  lemma Operations9And10()
    requires Roles(8, 0xfe15_f787, 0xda9b_bb0d, 0xb711_22fc, 0xa811_b278)
    ensures Roles(10, 0xb711_22fc, 0x2bbe_757f, 0xae75_2899, 0xda9b_bb0d)
  {
    hide Roles, Operations, Pow2, X, Block;
    Powers();
    Words();
    Step(8, 0xfe15_f787, 0xda9b_bb0d, 0xb711_22fc, 0xa811_b278, 0x19a7_b2db, 0x200_0000, 0x80, 0xae75_2899);
    Step(9, 0xa811_b278, 0xae75_2899, 0xda9b_bb0d, 0xb711_22fc, 0xce67_d494, 0x10_0000, 0x1000, 0x2bbe_757f);
  }

  lemma Operations11And12()
    requires Roles(10, 0xb711_22fc, 0x2bbe_757f, 0xae75_2899, 0xda9b_bb0d)
    ensures Roles(12, 0xae75_2899, 0x56cf_a5cb, 0x7d4b_d80b, 0x2bbe_757f)
  {
    hide Roles, Operations, Pow2, X, Block;
    Powers();
    Words();
    Step(10, 0xb711_22fc, 0x2bbe_757f, 0xae75_2899, 0xda9b_bb0d, 0xb146_28c6, 0x8000, 0x2_0000, 0x7d4b_d80b);
    Step(11, 0xda9b_bb0d, 0x7d4b_d80b, 0x2bbe_757f, 0xae75_2899, 0x0f37_0366, 0x400, 0x40_0000, 0x56cf_a5cb);
  }

  lemma Operations13And14()
    requires Roles(12, 0xae75_2899, 0x56cf_a5cb, 0x7d4b_d80b, 0x2bbe_757f)
    ensures Roles(14, 0x7d4b_d80b, 0x8556_7d90, 0x1754_a316, 0x56cf_a5cb)
  {
    hide Roles, Operations, Pow2, X, Block;
    Powers();
    Words();
    Step(12, 0xae75_2899, 0x56cf_a5cb, 0x7d4b_d80b, 0x2bbe_757f, 0x9781_09fa, 0x200_0000, 0x80, 0x1754_a316);
    Step(13, 0x2bbe_757f, 0x1754_a316, 0x56cf_a5cb, 0x7d4b_d80b, 0xa7a6_e01d, 0x10_0000, 0x1000, 0x8556_7d90);
  }

  lemma Operations15And16()
    requires Roles(14, 0x7d4b_d80b, 0x8556_7d90, 0x1754_a316, 0x56cf_a5cb)
    ensures Roles(16, 0x1754_a316, 0x608d_6b7e, 0x00df_74d5, 0x8556_7d90)
  {
    hide Roles, Operations, Pow2, X, Block;
    Powers();
    Words();
    Step(14, 0x7d4b_d80b, 0x8556_7d90, 0x1754_a316, 0x56cf_a5cb, 0x7ba2_bdc4, 0x8000, 0x2_0000, 0x00df_74d5);
    Step(15, 0x56cf_a5cb, 0x00df_74d5, 0x8556_7d90, 0x1754_a316, 0xb7da_a57e, 0x400, 0x40_0000, 0x608d_6b7e);
  }

  lemma Operations17And18()
    requires Roles(16, 0x1754_a316, 0x608d_6b7e, 0x00df_74d5, 0x8556_7d90)
    ensures Roles(18, 0x00df_74d5, 0x5dce_e119, 0x2d80_71cc, 0x608d_6b7e)
  {
    hide Roles, Operations, Pow2, X, Block;
    Powers();
    Words();
    Step(16, 0x1754_a316, 0x608d_6b7e, 0x00df_74d5, 0x8556_7d90, 0x7667_9832, 0x800_0000, 0x20, 0x2d80_71cc);
    Step(17, 0x8556_7d90, 0x2d80_71cc, 0x608d_6b7e, 0x00df_74d5, 0xa698_2737, 0x80_0000, 0x200, 0x5dce_e119);
  }

  lemma Operations19And20()
    requires Roles(18, 0x00df_74d5, 0x5dce_e119, 0x2d80_71cc, 0x608d_6b7e)
    ensures Roles(20, 0x2d80_71cc, 0x4c21_45b3, 0xedfe_7e4b, 0x5dce_e119)
  {
    hide Roles, Operations, Pow2, X, Block;
    Powers();
    Words();
    Step(18, 0x00df_74d5, 0x5dce_e119, 0x2d80_71cc, 0x608d_6b7e, 0x74ca_40be, 0x4_0000, 0x4000, 0xedfe_7e4b);
    Step(19, 0x608d_6b7e, 0xedfe_7e4b, 0x5dce_e119, 0x2d80_71cc, 0x2c76_85e2, 0x1000, 0x10_0000, 0x4c21_45b3);
  }

  lemma Operations21And22()
    requires Roles(20, 0x2d80_71cc, 0x4c21_45b3, 0xedfe_7e4b, 0x5dce_e119)
    ensures Roles(22, 0xedfe_7e4b, 0x977e_fd2a, 0x570c_43e0, 0x4c21_45b3)
  {
    hide Roles, Operations, Pow2, X, Block;
    Powers();
    Words();
    Step(20, 0x2d80_71cc, 0x4c21_45b3, 0xedfe_7e4b, 0x5dce_e119, 0x6857_57f1, 0x800_0000, 0x20, 0x570c_43e0);
    Step(21, 0x5dce_e119, 0x570c_43e0, 0x4c21_45b3, 0xedfe_7e4b, 0xa520_395c, 0x80_0000, 0x200, 0x977e_fd2a);
  }

  lemma Operations23And24()
    requires Roles(22, 0xedfe_7e4b, 0x977e_fd2a, 0x570c_43e0, 0x4c21_45b3)
    ensures Roles(24, 0x570c_43e0, 0xc9f1_62d4, 0xc28a_b49d, 0x977e_fd2a)
  {
    hide Roles, Operations, Pow2, X, Block;
    Powers();
    Words();
    Step(22, 0xedfe_7e4b, 0x977e_fd2a, 0x570c_43e0, 0x4c21_45b3, 0xddcc_ac2e, 0x4_0000, 0x4000, 0xc28a_b49d);
    Step(23, 0x4c21_45b3, 0xc28a_b49d, 0x977e_fd2a, 0x570c_43e0, 0x6ae3_7076, 0x1000, 0x10_0000, 0xc9f1_62d4);
  }

  lemma Operations25And26()
    requires Roles(24, 0x570c_43e0, 0xc9f1_62d4, 0xc28a_b49d, 0x977e_fd2a)
    ensures Roles(26, 0xc28a_b49d, 0x8998_0104, 0x25bf_ae3b, 0xc9f1_62d4)
  {
    hide Roles, Operations, Pow2, X, Block;
    Powers();
    Words();
    Step(24, 0x570c_43e0, 0xc9f1_62d4, 0xc28a_b49d, 0x977e_fd2a, 0x3ade_725b, 0x800_0000, 0x20, 0x25bf_ae3b);
    Step(25, 0x977e_fd2a, 0x25bf_ae3b, 0xc9f1_62d4, 0xc28a_b49d, 0x64b1_ec29, 0x80_0000, 0x200, 0x8998_0104);
  }

  lemma Operations27And28()
    requires Roles(26, 0xc28a_b49d, 0x8998_0104, 0x25bf_ae3b, 0xc9f1_62d4)
    ensures Roles(28, 0x25bf_ae3b, 0xe6d3_b398, 0xf8c8_365f, 0x8998_0104)
  {
    hide Roles, Operations, Pow2, X, Block;
    Powers();
    Words();
    Step(26, 0xc28a_b49d, 0x8998_0104, 0x25bf_ae3b, 0xc9f1_62d4, 0xd56d_bcc0, 0x4_0000, 0x4000, 0xf8c8_365f);
    Step(27, 0xc9f1_62d4, 0xf8c8_365f, 0x8998_0104, 0x25bf_ae3b, 0xb7d3_9ee0, 0x1000, 0x10_0000, 0xe6d3_b398);
  }

  lemma Operations29And30()
    requires Roles(28, 0x25bf_ae3b, 0xe6d3_b398, 0xf8c8_365f, 0x8998_0104)
    ensures Roles(30, 0xf8c8_365f, 0x927b_72e2, 0xf54d_8710, 0xe6d3_b398)
  {
    hide Roles, Operations, Pow2, X, Block;
    Powers();
    Words();
    Step(28, 0x25bf_ae3b, 0xe6d3_b398, 0xf8c8_365f, 0x8998_0104, 0xc073_ce9b, 0x800_0000, 0x20, 0xf54d_8710);
    Step(29, 0x8998_0104, 0xf54d_8710, 0xe6d3_b398, 0xf8c8_365f, 0xe94e_96f5, 0x80_0000, 0x200, 0x927b_72e2);
  }

  lemma Operations31And32()
    requires Roles(30, 0xf8c8_365f, 0x927b_72e2, 0xf54d_8710, 0xe6d3_b398)
    ensures Roles(32, 0xf54d_8710, 0xaeb3_5766, 0x2e69_afc7, 0x927b_72e2)
  {
    hide Roles, Operations, Pow2, X, Block;
    Powers();
    Words();
    Step(30, 0xf8c8_365f, 0x927b_72e2, 0xf54d_8710, 0xe6d3_b398, 0xf396_6fb8, 0x4_0000, 0x4000, 0x2e69_afc7);
    Step(31, 0xe6d3_b398, 0x2e69_afc7, 0x927b_72e2, 0xf54d_8710, 0x9a79_f804, 0x1000, 0x10_0000, 0xaeb3_5766);
  }

  lemma Operations33And34()
    requires Roles(32, 0xf54d_8710, 0xaeb3_5766, 0x2e69_afc7, 0x927b_72e2)
    ensures Roles(34, 0x2e69_afc7, 0x4c8f_fa80, 0xb4bf_680e, 0xaeb3_5766)
  {
    hide Roles, Operations, Pow2, X, Block;
    Powers();
    Words();
    Step(32, 0xf54d_8710, 0xaeb3_5766, 0x2e69_afc7, 0x927b_72e2, 0x8060_c10a, 0x1000_0000, 0x10, 0xb4bf_680e);
    Step(33, 0x927b_72e2, 0xb4bf_680e, 0xaeb3_5766, 0x2e69_afc7, 0x4e52_fa12, 0x20_0000, 0x800, 0x4c8f_fa80);
  }

  lemma Operations35And36()
    requires Roles(34, 0x2e69_afc7, 0x4c8f_fa80, 0xb4bf_680e, 0xaeb3_5766)
    ensures Roles(36, 0xb4bf_680e, 0x06a5_e211, 0x2361_ed0a, 0x4c8f_fa80)
  {
    hide Roles, Operations, Pow2, X, Block;
    Powers();
    Words();
    Step(34, 0x2e69_afc7, 0x4c8f_fa80, 0xb4bf_680e, 0xaeb3_5766, 0xf28a_d6d1, 0x1_0000, 0x1_0000, 0x2361_ed0a);
    Step(35, 0xaeb3_5766, 0x2361_ed0a, 0x4c8f_fa80, 0xb4bf_680e, 0x87ea_0fc6, 0x200, 0x80_0000, 0x06a5_e211);
  }

  lemma Operations37And38()
    requires Roles(36, 0xb4bf_680e, 0x06a5_e211, 0x2361_ed0a, 0x4c8f_fa80)
    ensures Roles(38, 0x2361_ed0a, 0xf1e6_dc7a, 0xb9c0_c733, 0x06a5_e211)
  {
    hide Roles, Operations, Pow2, X, Block;
    Powers();
    Words();
    Step(36, 0xb4bf_680e, 0x06a5_e211, 0x2361_ed0a, 0x4c8f_fa80, 0x2b31_ae52, 0x1000_0000, 0x10, 0xb9c0_c733);
    Step(37, 0x4c8f_fa80, 0xb9c0_c733, 0x06a5_e211, 0x2361_ed0a, 0xa8e7_04c2, 0x20_0000, 0x800, 0xf1e6_dc7a);
  }

  lemma Operations39And40()
    requires Roles(38, 0x2361_ed0a, 0xf1e6_dc7a, 0xb9c0_c733, 0x06a5_e211)
    ensures Roles(40, 0xb9c0_c733, 0x8d41_bf99, 0x23a9_451b, 0xf1e6_dc7a)
  {
    hide Roles, Operations, Pow2, X, Block;
    Powers();
    Words();
    Step(38, 0x2361_ed0a, 0xf1e6_dc7a, 0xb9c0_c733, 0x06a5_e211, 0x68a1_31c2, 0x1_0000, 0x1_0000, 0x23a9_451b);
    Step(39, 0x06a5_e211, 0x23a9_451b, 0xf1e6_dc7a, 0xb9c0_c733, 0x30f4_fcd3, 0x200, 0x80_0000, 0x8d41_bf99);
  }

  lemma Operations41And42()
    requires Roles(40, 0xb9c0_c733, 0x8d41_bf99, 0x23a9_451b, 0xf1e6_dc7a)
    ensures Roles(42, 0x23a9_451b, 0x02c0_b11c, 0xa3e8_8ead, 0x8d41_bf99)
  {
    hide Roles, Operations, Pow2, X, Block;
    Powers();
    Words();
    Step(40, 0xb9c0_c733, 0x8d41_bf99, 0x23a9_451b, 0xf1e6_dc7a, 0x416a_6cf1, 0x1000_0000, 0x10, 0xa3e8_8ead);
    Step(41, 0xf1e6_dc7a, 0xa3e8_8ead, 0x8d41_bf99, 0x23a9_451b, 0x4deb_db04, 0x20_0000, 0x800, 0x02c0_b11c);
  }

  lemma Operations43And44()
    requires Roles(42, 0x23a9_451b, 0x02c0_b11c, 0xa3e8_8ead, 0x8d41_bf99)
    ensures Roles(44, 0xa3e8_8ead, 0x90a3_5af5, 0x66f6_468d, 0x02c0_b11c)
  {
    hide Roles, Operations, Pow2, X, Block;
    Powers();
    Words();
    Step(42, 0x23a9_451b, 0x02c0_b11c, 0xa3e8_8ead, 0x8d41_bf99, 0x9571_6435, 0x1_0000, 0x1_0000, 0x66f6_468d);
    Step(43, 0x8d41_bf99, 0x66f6_468d, 0x02c0_b11c, 0xa3e8_8ead, 0x5a28_d053, 0x200, 0x80_0000, 0x90a3_5af5);
  }

  lemma Operations45And46()
    requires Roles(44, 0xa3e8_8ead, 0x90a3_5af5, 0x66f6_468d, 0x02c0_b11c)
    ensures Roles(46, 0x66f6_468d, 0xa04b_4904, 0xb5d4_1f9c, 0x90a3_5af5)
  {
    hide Roles, Operations, Pow2, X, Block;
    Powers();
    Words();
    Step(44, 0xa3e8_8ead, 0x90a3_5af5, 0x66f6_468d, 0x02c0_b11c, 0x7253_0c4a, 0x1000_0000, 0x10, 0xb5d4_1f9c);
    Step(45, 0x02c0_b11c, 0xb5d4_1f9c, 0x90a3_5af5, 0x66f6_468d, 0x2d1d_4ee5, 0x20_0000, 0x800, 0xa04b_4904);
  }

  lemma Operations47And48()
    requires Roles(46, 0x66f6_468d, 0xa04b_4904, 0xb5d4_1f9c, 0x90a3_5af5)
    ensures Roles(48, 0xb5d4_1f9c, 0x71d1_0367, 0x703d_54d8, 0xa04b_4904)
  {
    hide Roles, Operations, Pow2, X, Block;
    Powers();
    Words();
    Step(46, 0x66f6_468d, 0xa04b_4904, 0xb5d4_1f9c, 0x90a3_5af5, 0x0bd4_cff2, 0x1_0000, 0x1_0000, 0x703d_54d8);
    Step(47, 0x90a3_5af5, 0x703d_54d8, 0xa04b_4904, 0xb5d4_1f9c, 0x275d_1e03, 0x200, 0x80_0000, 0x71d1_0367);
  }

  lemma Operations49And50()
    requires Roles(48, 0xb5d4_1f9c, 0x71d1_0367, 0x703d_54d8, 0xa04b_4904)
    ensures Roles(50, 0x703d_54d8, 0x6545_6b34, 0xfc32_dd6e, 0x71d1_0367)
  {
    hide Roles, Operations, Pow2, X, Block;
    Powers();
    Words();
    Step(48, 0xb5d4_1f9c, 0x71d1_0367, 0x703d_54d8, 0xa04b_4904, 0x1e29_8768, 0x400_0000, 0x40, 0xfc32_dd6e);
    Step(49, 0xa04b_4904, 0xfc32_dd6e, 0x71d1_0367, 0x703d_54d8, 0x719a_44a3, 0x40_0000, 0x400, 0x6545_6b34);
  }

  lemma Operations51And52()
    requires Roles(50, 0x703d_54d8, 0x6545_6b34, 0xfc32_dd6e, 0x71d1_0367)
    ensures Roles(52, 0xfc32_dd6e, 0x33ed_b197, 0xb356_02cb, 0x6545_6b34)
  {
    hide Roles, Operations, Pow2, X, Block;
    Powers();
    Words();
    Step(50, 0x703d_54d8, 0x6545_6b34, 0xfc32_dd6e, 0x71d1_0367, 0x2f2e_9c21, 0x2_0000, 0x8000, 0xb356_02cb);
    Step(51, 0x71d1_0367, 0xb356_02cb, 0x6545_6b34, 0xfc32_dd6e, 0xbd76_6404, 0x800, 0x20_0000, 0x33ed_b197);
  }

  lemma Operations53And54()
    requires Roles(52, 0xfc32_dd6e, 0x33ed_b197, 0xb356_02cb, 0x6545_6b34)
    ensures Roles(54, 0xb356_02cb, 0xd9bb_987c, 0xc1e9_42f1, 0x33ed_b197)
  {
    hide Roles, Operations, Pow2, X, Block;
    Powers();
    Words();
    Step(52, 0xfc32_dd6e, 0x33ed_b197, 0xb356_02cb, 0x6545_6b34, 0x6a37_ee45, 0x400_0000, 0x40, 0xc1e9_42f1);
    Step(53, 0x6545_6b34, 0xc1e9_42f1, 0x33ed_b197, 0xb356_02cb, 0x62c5_f495, 0x40_0000, 0x400, 0xd9bb_987c);
  }

  lemma Operations55And56()
    requires Roles(54, 0xb356_02cb, 0xd9bb_987c, 0xc1e9_42f1, 0x33ed_b197)
    ensures Roles(56, 0xc1e9_42f1, 0x8387_7d1b, 0x23a6_8048, 0xd9bb_987c)
  {
    hide Roles, Operations, Pow2, X, Block;
    Powers();
    Words();
    Step(54, 0xb356_02cb, 0xd9bb_987c, 0xc1e9_42f1, 0x33ed_b197, 0xcf98_93d5, 0x2_0000, 0x8000, 0x23a6_8048);
    Step(55, 0x33ed_b197, 0x23a6_8048, 0xd9bb_987c, 0xc1e9_42f1, 0x07e6_9aff, 0x800, 0x20_0000, 0x8387_7d1b);
  }

  lemma Operations57And58()
    requires Roles(56, 0xc1e9_42f1, 0x8387_7d1b, 0x23a6_8048, 0xd9bb_987c)
    ensures Roles(58, 0x23a6_8048, 0x847f_c2e7, 0x0077_c208, 0x8387_7d1b)
  {
    hide Roles, Operations, Pow2, X, Block;
    Powers();
    Words();
    Step(56, 0xc1e9_42f1, 0x8387_7d1b, 0x23a6_8048, 0xd9bb_987c, 0xb5f3_c113, 0x400_0000, 0x40, 0x0077_c208);
    Step(57, 0xd9bb_987c, 0x0077_c208, 0x8387_7d1b, 0x23a6_8048, 0x37e1_0200, 0x40_0000, 0x400, 0x847f_c2e7);
  }

  lemma Operations59And60()
    requires Roles(58, 0x23a6_8048, 0x847f_c2e7, 0x0077_c208, 0x8387_7d1b)
    ensures Roles(60, 0x0077_c208, 0x5e6b_c930, 0xa3e2_247f, 0x847f_c2e7)
  {
    hide Roles, Operations, Pow2, X, Block;
    Powers();
    Words();
    Step(58, 0x23a6_8048, 0x847f_c2e7, 0x0077_c208, 0x8387_7d1b, 0xc330_3ec4, 0x2_0000, 0x8000, 0xa3e2_247f);
    Step(59, 0x8387_7d1b, 0xa3e2_247f, 0x847f_c2e7, 0x0077_c208, 0x4d25_8dd4, 0x800, 0x20_0000, 0x5e6b_c930);
  }

  lemma Operations61And62()
    requires Roles(60, 0x0077_c208, 0x5e6b_c930, 0xa3e2_247f, 0x847f_c2e7)
    ensures Roles(62, 0xa3e2_247f, 0x2baf_1354, 0x708e_d9c2, 0x5e6b_c930)
  {
    hide Roles, Operations, Pow2, X, Block;
    Powers();
    Words();
    Step(60, 0x0077_c208, 0x5e6b_c930, 0xa3e2_247f, 0x847f_c2e7, 0x4848_8c42, 0x400_0000, 0x40, 0x708e_d9c2);
    Step(61, 0x847f_c2e7, 0x708e_d9c2, 0x5e6b_c930, 0xa3e2_247f, 0x64ae_c80e, 0x40_0000, 0x400, 0x2baf_1354);
  }

  lemma Operations63And64()
    requires Roles(62, 0xa3e2_247f, 0x2baf_1354, 0x708e_d9c2, 0x5e6b_c930)
    ensures Roles(64, 0x708e_d9c2, 0x1116_e6d8, 0xd38f_1e7f, 0x2baf_1354)
  {
    hide Roles, Operations, Pow2, X, Block;
    Powers();
    Words();
    Step(62, 0xa3e2_247f, 0x2baf_1354, 0x708e_d9c2, 0x5e6b_c930, 0x1657_4fc0, 0x2_0000, 0x8000, 0xd38f_1e7f);
    Step(63, 0x5e6b_c930, 0xd38f_1e7f, 0x2baf_1354, 0x708e_d9c2, 0x3e42_c9ec, 0x800, 0x20_0000, 0x1116_e6d8);
  }

  /** The order in which rounds 2 to 4 take the words of a block. */
  lemma WordOrder2()
    ensures K(16) == 1 && K(17) == 6 && K(18) == 11 && K(19) == 0 && K(20) == 5 && K(21) == 10 && K(22) == 15 && K(23) == 4
    ensures K(24) == 9 && K(25) == 14 && K(26) == 3 && K(27) == 8 && K(28) == 13 && K(29) == 2 && K(30) == 7 && K(31) == 12
  {
  }

  lemma WordOrder3()
    ensures K(32) == 5 && K(33) == 8 && K(34) == 11 && K(35) == 14 && K(36) == 1 && K(37) == 4 && K(38) == 7 && K(39) == 10
    ensures K(40) == 13 && K(41) == 0 && K(42) == 3 && K(43) == 6 && K(44) == 9 && K(45) == 12 && K(46) == 15 && K(47) == 2
  {
  }

  lemma WordOrder4()
    ensures K(48) == 0 && K(49) == 7 && K(50) == 14 && K(51) == 5 && K(52) == 12 && K(53) == 3 && K(54) == 10 && K(55) == 1
    ensures K(56) == 8 && K(57) == 15 && K(58) == 6 && K(59) == 13 && K(60) == 4 && K(61) == 11 && K(62) == 2 && K(63) == 9
  {
  }

  // ---------------------------------------------------------------- the digest

  /** MD5 ("abcdefghijklmnopqrstuvwxyz") = c3fcd3d76192e4007dfb496cca67e13b */
  lemma Alphabet()
    ensures Digest(Letters()) == [0xc3, 0xfc, 0xd3, 0xd7, 0x61, 0x92, 0xe4, 0x00, 0x7d, 0xfb, 0x49, 0x6c, 0xca, 0x67, 0xe1, 0x3b]
  {
    hide Padded, Compress, Output, Letters;
    Size();
    var p := Padded(Letters());
    assert p[64 * 0..64 * 1] == Block();
    assert Blocks(p, 0) == Initial;
    assert Blocks(p, 1) == Compress(Blocks(p, 0), p[64 * 0..64 * 1]);
    OneBlock();
    Bytes();
  }

  lemma OneBlock()
    ensures Compress(Initial, Block()) == [0xd7d3_fcc3, 0x00e4_9261, 0x6c49_fb7d, 0x3be1_67ca]
  {
    hide Roles, Operations, Block;
    Operations1And2();
    Operations3And4();
    Operations5And6();
    Operations7And8();
    Operations9And10();
    Operations11And12();
    Operations13And14();
    Operations15And16();
    Operations17And18();
    Operations19And20();
    Operations21And22();
    Operations23And24();
    Operations25And26();
    Operations27And28();
    Operations29And30();
    Operations31And32();
    Operations33And34();
    Operations35And36();
    Operations37And38();
    Operations39And40();
    Operations41And42();
    Operations43And44();
    Operations45And46();
    Operations47And48();
    Operations49And50();
    Operations51And52();
    Operations53And54();
    Operations55And56();
    Operations57And58();
    Operations59And60();
    Operations61And62();
    Operations63And64();
    LastRoles(0x708e_d9c2, 0x1116_e6d8, 0xd38f_1e7f, 0x2baf_1354);
    LastWords();
  }

  lemma LastRoles(a: bv32, b: bv32, c: bv32, d: bv32)
    requires Roles(64, a, b, c, d)
    ensures Operations(64, Initial, Block()) == [Num(a), Num(b), Num(c), Num(d)]
  {
    hide Operations, Block, Num;
    assert First(64) == 0;
  }

  lemma LastWords()
    ensures Num(0x708e_d9c2) == 0x708e_d9c2 && Num(0x1116_e6d8) == 0x1116_e6d8
    ensures Num(0xd38f_1e7f) == 0xd38f_1e7f && Num(0x2baf_1354) == 0x2baf_1354
  {
  }

  lemma Bytes()
    ensures Output([0xd7d3_fcc3, 0x00e4_9261, 0x6c49_fb7d, 0x3be1_67ca]) ==
            [0xc3, 0xfc, 0xd3, 0xd7, 0x61, 0x92, 0xe4, 0x00, 0x7d, 0xfb, 0x49, 0x6c, 0xca, 0x67, 0xe1, 0x3b]
  {
    hide LeBytes;
    WordBytes(0xc3, 0xfc, 0xd3, 0xd7);
    WordBytes(0x61, 0x92, 0xe4, 0x00);
    WordBytes(0x7d, 0xfb, 0x49, 0x6c);
    WordBytes(0xca, 0x67, 0xe1, 0x3b);
  }

  lemma WordBytes(a: byte, b: byte, c: byte, d: byte)
    ensures LeBytes(Joined(a, b, c, d), 4) == [a, b, c, d]
  {
    hide LeBytes, LeValue, Joined;
    FourBytes([a, b, c, d]);
    LeValueRange([a, b, c, d]);
  }
}
