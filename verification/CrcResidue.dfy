/**
 The receiver's magic values documented beside the tables of src/crc/simple_crc.cpp. The constants of CRC-32 are
 evaluated on 32-bit words.
 */
module CrcResidue {
  import opened UInt
  import opened StreamSpec
  import opened CrcSpec

  function Top(x: bv32): bool { x & 0x8000_0000 != 0 }

  function Dbl(x: bv32): bv32 { x << 1 }

  function Add(x: bv32, y: bv32): bv32 { x ^ y }

  function Dbls(n: nat, x: bv32): bv32
    decreases n
  {
    if n == 0 then x else Dbls(n - 1, Dbl(x))
  }

  /** A word as a register, the most significant bit first. */
  function Word(x: bv32): (r: bits)
    ensures |r| == 32
  {
    seq(32, i requires 0 <= i < 32 => Top(Dbls(i, x)))
  }

  function StepBv(x: bv32, p: bv32): bv32
  {
    if Top(x) then Add(Dbl(x), p) else Dbl(x)
  }

  function StepsBv(n: nat, x: bv32, p: bv32): bv32
    decreases n
  {
    if n == 0 then x else StepsBv(n - 1, StepBv(x, p), p)
  }

  lemma {:induction false} DblsAdd(n: nat, x: bv32, y: bv32)
    ensures Top(Dbls(n, Add(x, y))) == (Top(Dbls(n, x)) != Top(Dbls(n, y)))
    decreases n
  {
    hide Top, Dbl, Add;
    if n > 0 {
      DblAdd(x, y);
      DblsAdd(n - 1, Dbl(x), Dbl(y));
    } else {
      TopAdd(x, y);
    }
  }

  lemma DblAdd(x: bv32, y: bv32)
    ensures Dbl(Add(x, y)) == Add(Dbl(x), Dbl(y))
  {
  }

  lemma TopAdd(x: bv32, y: bv32)
    ensures Top(Add(x, y)) == (Top(x) != Top(y))
  {
  }

  lemma DblFour(n: nat, x: bv32)
    ensures Dbls(n + 4, x) == Dbls(n, Dbl(Dbl(Dbl(Dbl(x)))))
  {
    hide Dbl;
    var x1 := Dbl(x);
    var x2 := Dbl(x1);
    var x3 := Dbl(x2);
    assert Dbls(n + 4, x) == Dbls(n + 3, x1) == Dbls(n + 2, x2) == Dbls(n + 1, x3) == Dbls(n, Dbl(x3));
  }

  lemma ShiftedOut(x: bv32)
    ensures !Top(Dbls(32, x))
  {
    hide Dbls, Top;
    DblFour(28, x);
    var x1 := Dbl(Dbl(Dbl(Dbl(x))));
    DblFour(24, x1);
    var x2 := Dbl(Dbl(Dbl(Dbl(x1))));
    DblFour(20, x2);
    var x3 := Dbl(Dbl(Dbl(Dbl(x2))));
    DblFour(16, x3);
    var x4 := Dbl(Dbl(Dbl(Dbl(x3))));
    DblFour(12, x4);
    var x5 := Dbl(Dbl(Dbl(Dbl(x4))));
    DblFour(8, x5);
    var x6 := Dbl(Dbl(Dbl(Dbl(x5))));
    DblFour(4, x6);
    var x7 := Dbl(Dbl(Dbl(Dbl(x6))));
    DblFour(0, x7);
    var x8 := Dbl(Dbl(Dbl(Dbl(x7))));
    assert x8 == 0;
    ZeroTop();
  }

  lemma ZeroTop()
    ensures !Top(Dbls(0, 0))
  {
  }

  lemma WordStep(x: bv32, p: bv32)
    ensures Step(Word(x), Word(p)) == Word(StepBv(x, p))
  {
    hide Top, Dbl, Add;
    hide Step, Word, StepBv, Dbls;
    forall i | 0 <= i < 32 ensures Step(Word(x), Word(p))[i] == Word(StepBv(x, p))[i] { WordStepAt(x, p, i); }
  }

  lemma WordStepAt(x: bv32, p: bv32, i: nat)
    requires i < 32
    ensures Step(Word(x), Word(p))[i] == Word(StepBv(x, p))[i]
  {
    hide Top, Dbl, Add;
    DblsAdd(i, Dbl(x), p);
    if i == 31 { ShiftedOut(x); }
  }

  lemma {:induction false} WordSteps(n: nat, x: bv32, p: bv32)
    ensures Steps(n, Word(x), Word(p)) == Word(StepsBv(n, x, p))
    decreases n
  {
    hide Step, Word, StepBv;
    if n > 0 {
      WordStep(x, p);
      WordSteps(n - 1, StepBv(x, p), p);
    }
  }

  // ---------------------------------------------------------------- words and numbers

  /** acc followed by the first n bits of x, as a binary number. */
  function Number(n: nat, acc: nat, x: bv32): nat
    decreases n
  {
    if n == 0 then acc else Number(n - 1, 2 * acc + B2N(Top(x)), Dbl(x))
  }

  /** The first n bits of x, the first one being the least significant. */
  function Mirrored(n: nat, x: bv32): nat
    decreases n
  {
    if n == 0 then 0 else B2N(Top(x)) + 2 * Mirrored(n - 1, Dbl(x))
  }

  lemma OneBit(acc: nat, a: bool, k: nat)
    ensures Reg(Normal, 2 * acc + B2N(a), k + 1) == Reg(Normal, acc, k) + [a]
    ensures ToBits(2 * acc + B2N(a), k + 1) == [a] + ToBits(acc, k)
  {
    var v := 2 * acc + B2N(a);
    assert v / 2 == acc && (v % 2 == 1) == a;
    assert ToBits(v, k + 1) == [a] + ToBits(acc, k);
  }

  lemma WordDbl(x: bv32, n: nat)
    requires 1 <= n <= 32
    ensures Word(x)[..n] == [Top(x)] + Word(Dbl(x))[..n - 1]
  {
    hide Top, Dbl;
  }

  lemma {:induction false} NumberBits(n: nat, acc: nat, x: bv32, k: nat)
    requires n <= 32
    ensures Reg(Normal, Number(n, acc, x), k + n) == Reg(Normal, acc, k) + Word(x)[..n]
    decreases n
  {
    hide Reg, Top, Dbl, Word;
    if n > 0 {
      NumberBits(n - 1, 2 * acc + B2N(Top(x)), Dbl(x), k + 1);
      OneBit(acc, Top(x), k);
      WordDbl(x, n);
    }
  }

  lemma {:induction false} MirroredBits(n: nat, x: bv32)
    requires n <= 32
    ensures Reg(Reflected, Mirrored(n, x), n) == Word(x)[..n]
    decreases n
  {
    hide Top, Dbl, Word;
    if n > 0 {
      MirroredBits(n - 1, Dbl(x));
      OneBit(Mirrored(n - 1, Dbl(x)), Top(x), n - 1);
      WordDbl(x, n);
    }
  }

  function Next(x: bv32): bv32 { x << 4 }

  /** The first digit of x, its first bit being the most or the least significant. */
  function Digit(x: bv32): nat
  {
    8 * B2N(x & 0x8000_0000 != 0) + 4 * B2N(x & 0x4000_0000 != 0) + 2 * B2N(x & 0x2000_0000 != 0) + B2N(x & 0x1000_0000 != 0)
  }

  function MirroredDigit(x: bv32): nat
  {
    B2N(x & 0x8000_0000 != 0) + 2 * B2N(x & 0x4000_0000 != 0) + 4 * B2N(x & 0x2000_0000 != 0) + 8 * B2N(x & 0x1000_0000 != 0)
  }

  lemma DigitBits(x: bv32)
    ensures var x1 := Dbl(x); var x2 := Dbl(x1); var x3 := Dbl(x2);
            && Digit(x) == 8 * B2N(Top(x)) + 4 * B2N(Top(x1)) + 2 * B2N(Top(x2)) + B2N(Top(x3))
            && MirroredDigit(x) == B2N(Top(x)) + 2 * B2N(Top(x1)) + 4 * B2N(Top(x2)) + 8 * B2N(Top(x3))
            && Dbl(x3) == Next(x)
  {
  }

  lemma FourBits(n: nat, acc: nat, x: bv32)
    ensures Number(n + 4, acc, x) == Number(n, 16 * acc + Digit(x), Next(x))
    ensures Mirrored(n + 4, x) == MirroredDigit(x) + 16 * Mirrored(n, Next(x))
  {
    hide Top, Dbl, Digit, MirroredDigit, Next;
    DigitBits(x);
    var x1 := Dbl(x);
    var x2 := Dbl(x1);
    var x3 := Dbl(x2);
    var a1 := 2 * acc + B2N(Top(x));
    var a2 := 2 * a1 + B2N(Top(x1));
    var a3 := 2 * a2 + B2N(Top(x2));
    assert Number(n + 4, acc, x) == Number(n + 3, a1, x1) == Number(n + 2, a2, x2) == Number(n + 1, a3, x3);
    assert Mirrored(n + 4, x) == B2N(Top(x)) + 2 * Mirrored(n + 3, x1);
    assert Mirrored(n + 3, x1) == B2N(Top(x1)) + 2 * Mirrored(n + 2, x2);
    assert Mirrored(n + 2, x2) == B2N(Top(x2)) + 2 * Mirrored(n + 1, x3);
  }

  /** A word as a number written with its eight digits. */
  function Normal32(x: bv32): nat
  {
    Horner(8, 0, x)
  }

  function Mirrored32(x: bv32): nat
  {
    MirroredHorner(8, x)
  }

  function Horner(n: nat, acc: nat, x: bv32): nat
    decreases n
  {
    if n == 0 then acc else Horner(n - 1, 16 * acc + Digit(x), Next(x))
  }

  function MirroredHorner(n: nat, x: bv32): nat
    decreases n
  {
    if n == 0 then 0 else MirroredDigit(x) + 16 * MirroredHorner(n - 1, Next(x))
  }

  lemma {:induction false} Digits(n: nat, acc: nat, x: bv32)
    ensures Number(4 * n, acc, x) == Horner(n, acc, x) && Mirrored(4 * n, x) == MirroredHorner(n, x)
    decreases n
  {
    hide Digit, MirroredDigit, Number, Mirrored, Next;
    if n > 0 {
      FourBits(4 * (n - 1), acc, x);
      Digits(n - 1, 16 * acc + Digit(x), Next(x));
    } else {
      NoDigits(acc, x);
    }
  }

  lemma NoDigits(acc: nat, x: bv32)
    ensures Number(0, acc, x) == acc && Mirrored(0, x) == 0
  {
  }

  /** The register with the bits of a word, as a number in either form. */
  lemma WordIs(x: bv32)
    ensures Word(x) == Reg(Normal, Normal32(x), 32) == Reg(Reflected, Mirrored32(x), 32)
  {
    hide Word, Reg, Horner, MirroredHorner, Number, Mirrored;
    Digits(8, 0, x);
    NumberBits(32, 0, x, 0);
    assert Reg(Normal, 0, 0) == [] && Word(x)[..32] == Word(x);
    MirroredBits(32, x);
  }

  function Number32(f: Form, x: bv32): nat { if f == Normal then Normal32(x) else Mirrored32(x) }

  // ---------------------------------------------------------------- the documented constants

  lemma Magic(f: Form, p: bv32, xorOut: bv32, residue: bv32, init: nat, data: seq<byte>)
    requires StepsBv(32, xorOut, p) == residue
    ensures var xo := Number32(f, xorOut);
            var checksum := Xor(Crc(f, 32, Number32(f, p), init, data, false), xo);
            Xor(Crc(f, 32, Number32(f, p), init, data + Trailer(f, checksum, 4), false), xo) == Number32(f, Add(residue, xorOut))
  {
    hide Word, Reg, Normal32, Mirrored32, Xor, Feed, Value, MsgBits, Trailer, Steps, StepsBv, Add;
    Residue(f, 4, Number32(f, p), init, Number32(f, xorOut), data);
    WordIs(p);
    WordIs(xorOut);
    WordSteps(32, xorOut, p);
    WordIs(residue);
    var r, xo := Number32(f, residue), Number32(f, xorOut);
    Range(f, residue);
    Range(f, xorOut);
    Range(f, Add(residue, xorOut));
    RegValue(f, r, 32);
    WordIs(Add(residue, xorOut));
    RegXor(f, r, xo, 32);
    WordAdd(residue, xorOut);
    XorRange(r, xo, 32);
    RegValue(f, Xor(r, xo), 32);
    RegValue(f, Number32(f, Add(residue, xorOut)), 32);
  }

  lemma WordAdd(x: bv32, y: bv32)
    ensures Word(Add(x, y)) == XorS(Word(x), Word(y))
  {
    hide Top, Add;
    forall i | 0 <= i < 32 ensures Word(Add(x, y))[i] == XorS(Word(x), Word(y))[i] { DblsAdd(i, x, y); }
  }

  lemma Range(f: Form, x: bv32)
    ensures Number32(f, x) < Pow2(32)
  {
    hide Horner, MirroredHorner;
    assert Pow2(0) == 1;
    HornerRange(8, 0, x, 0);
  }

  lemma {:induction false} HornerRange(n: nat, acc: nat, x: bv32, k: nat)
    requires acc < Pow2(k)
    ensures Horner(n, acc, x) < Pow2(k + 4 * n) && MirroredHorner(n, x) < Pow2(4 * n)
    decreases n
  {
    hide Digit, MirroredDigit, Next;
    if n > 0 {
      Sixteen(k);
      Sixteen(4 * (n - 1));
      DigitRange(x);
      HornerRange(n - 1, 16 * acc + Digit(x), Next(x), k + 4);
    }
  }

  lemma Sixteen(k: nat)
    ensures Pow2(k + 4) == 16 * Pow2(k)
  {
    assert Pow2(k + 2) == 2 * Pow2(k + 1) == 4 * Pow2(k);
  }

  lemma DigitRange(x: bv32)
    ensures Digit(x) < 16 && MirroredDigit(x) < 16
  {
  }

  lemma Crc32Constants()
    ensures StepsBv(32, 0xffff_ffff, 0x04C1_1DB7) == 0xc704_dd7b && Add(0xc704_dd7b, 0xffff_ffff) == 0x38FB_2284
  {
    hide StepsBv;
    StepsAdd(8, 24, 0xffff_ffff, 0x04C1_1DB7);
    StepsAdd(8, 16, 0x4e08_bfb4, 0x04C1_1DB7);
    StepsAdd(8, 8, 0x00b7_647d, 0x04C1_1DB7);
    EightSteps();
  }

  lemma EightSteps()
    ensures StepsBv(8, 0xffff_ffff, 0x04C1_1DB7) == 0x4e08_bfb4 && StepsBv(8, 0x4e08_bfb4, 0x04C1_1DB7) == 0x00b7_647d
    ensures StepsBv(8, 0x00b7_647d, 0x04C1_1DB7) == 0xb764_7d00 && StepsBv(8, 0xb764_7d00, 0x04C1_1DB7) == 0xc704_dd7b
  {
    hide StepsBv;
    FirstEight();
    SecondEight();
    ThirdEight();
    FourthEight();
  }

  lemma FirstEight()
    ensures StepsBv(8, 0xffff_ffff, 0x04C1_1DB7) == 0x4e08_bfb4
  {
  }

  lemma SecondEight()
    ensures StepsBv(8, 0x4e08_bfb4, 0x04C1_1DB7) == 0x00b7_647d
  {
  }

  lemma ThirdEight()
    ensures StepsBv(8, 0x00b7_647d, 0x04C1_1DB7) == 0xb764_7d00
  {
  }

  lemma FourthEight()
    ensures StepsBv(8, 0xb764_7d00, 0x04C1_1DB7) == 0xc704_dd7b
  {
  }

  lemma {:induction false} StepsAdd(m: nat, n: nat, x: bv32, p: bv32)
    ensures StepsBv(m + n, x, p) == StepsBv(n, StepsBv(m, x, p), p)
    decreases m
  {
    hide StepBv;
    if m > 0 { StepsAdd(m - 1, n, StepBv(x, p), p); }
  }

  lemma AllOnes()
    ensures Normal32(0xffff_ffff) == 0xFFFF_FFFF
  {
  }

  lemma AllOnesMirrored()
    ensures Mirrored32(0xffff_ffff) == 0xFFFF_FFFF
  {
  }

  lemma Polynomial()
    ensures Normal32(0x04C1_1DB7) == 0x04C1_1DB7
  {
  }

  lemma MirroredPolynomial()
    ensures Mirrored32(0x04C1_1DB7) == 0xEDB8_8320
  {
  }

  lemma Bzip2Value()
    ensures Normal32(0x38FB_2284) == 0x38FB_2284
  {
  }

  lemma EthernetValue()
    ensures Mirrored32(0x38FB_2284) == 0x2144_DF1C
  {
  }

  /** CRC-32 BZIP2: checksum appended high byte first. */
  lemma Bzip2Magic(init: nat, data: seq<byte>)
    ensures var checksum := Xor(Crc(Normal, 32, 0x04C1_1DB7, init, data, false), 0xFFFF_FFFF);
            var received := data + Trailer(Normal, checksum, 4);
            Xor(Crc(Normal, 32, 0x04C1_1DB7, init, received, false), 0xFFFF_FFFF) == 0x38FB_2284
  {
    hide Normal32, Xor, Crc, StepsBv, Add;
    Crc32Constants();
    AllOnes();
    Polynomial();
    Bzip2Value();
    Magic(Normal, 0x04C1_1DB7, 0xffff_ffff, 0xc704_dd7b, init, data);
  }

  /** CRC-32 of Ethernet (clause 3.2.9 of IEEE 802.3): checksum appended low byte first. */
  lemma EthernetMagic(init: nat, data: seq<byte>)
    ensures var checksum := Xor(Crc(Reflected, 32, 0xEDB8_8320, init, data, false), 0xFFFF_FFFF);
            var received := data + Trailer(Reflected, checksum, 4);
            Xor(Crc(Reflected, 32, 0xEDB8_8320, init, received, false), 0xFFFF_FFFF) == 0x2144_DF1C
  {
    hide Mirrored32, Xor, Crc, StepsBv, Add;
    Crc32Constants();
    AllOnesMirrored();
    MirroredPolynomial();
    EthernetValue();
    Magic(Reflected, 0x04C1_1DB7, 0xffff_ffff, 0xc704_dd7b, init, data);
  }

  /** CRC-16 (XMODEM and CCITT FALSE) without final xor: zero, for either form and any polynomial. */
  lemma Crc16Magic(f: Form, p: nat, init: nat, data: seq<byte>)
    ensures Crc(f, 16, p, init, data + Trailer(f, Crc(f, 16, p, init, data, false), 2), false) == 0
  {
    hide Feed, Steps, Value, MsgBits, Trailer;
    var crc := Crc(f, 16, p, init, data, false);
    Residue(f, 2, p, init, 0, data);
    XorZero(crc);
    XorZero(Crc(f, 16, p, init, data + Trailer(f, crc, 2), false));
    XorZero(Shifted(f, 16, p, 0));
    ZeroReg(f, 16);
    ZeroSteps(16, Reg(f, p, 16));
    RegValue(f, 0, 16);
  }

  lemma XorZero(v: nat)
    ensures Xor(v, 0) == v
  {
  }

  lemma {:induction false} ZeroBits(n: nat)
    ensures ToBits(0, n) == Zeros(n)
  {
    if n > 0 { ZeroBits(n - 1); }
  }

  lemma ZeroReg(f: Form, n: nat)
    ensures Reg(f, 0, n) == Zeros(n)
  {
    hide ToBits, Reverse;
    ZeroBits(n);
    forall i | 0 <= i < n ensures !Reverse(Zeros(n))[i] { ReverseAt(Zeros(n), i); }
  }

  lemma {:induction false} ZeroSteps(n: nat, p: bits)
    requires |p| > 0
    ensures Steps(n, Zeros(|p|), p) == Zeros(|p|)
    decreases n
  {
    if n > 0 {
      assert Step(Zeros(|p|), p) == Zeros(|p|);
      ZeroSteps(n - 1, p);
    }
  }

  lemma StepPadded(a: bits, p: bits, k: nat)
    requires |a| == |p| > 0
    ensures Step(a + Zeros(k), p + Zeros(k)) == Step(a, p) + Zeros(k)
  {
  }

  lemma {:induction false} StepsPadded(n: nat, a: bits, p: bits, k: nat)
    requires |a| == |p| > 0
    ensures Steps(n, a + Zeros(k), p + Zeros(k)) == Steps(n, a, p) + Zeros(k)
    decreases n
  {
    hide Step, Zeros;
    if n > 0 {
      StepPadded(a, p, k);
      StepsPadded(n - 1, Step(a, p), p, k);
    }
  }

  /** A byte, kept at the top of a word. */
  lemma ByteWord(x: bv32)
    requires x & 0x00ff_ffff == 0
    ensures Word(x) == Reg(Normal, Horner(2, 0, x), 8) + Zeros(24)
  {
    hide Word, Number, Horner;
    Digits(2, 0, x);
    NumberBits(8, 0, x, 0);
    assert Reg(Normal, 0, 0) == [];
    LowZeros(x);
    assert Word(x) == Word(x)[..8] + Word(x)[8..];
  }

  lemma LowZeros(x: bv32)
    requires x & 0x00ff_ffff == 0
    ensures Word(x)[8..] == Zeros(24)
  {
    hide Dbls, Top, Dbl;
    DigitBits(x);
    DigitBits(Next(x));
    DblFour(4, x);
    DblFour(0, Next(x));
    var y := Next(Next(x));
    assert y == 0;
    assert Dbls(8, x) == y by { NoDbls(y); }
    forall i | 8 <= i < 32 ensures !Top(Dbls(i, x)) {
      DblsSplit(8, i - 8, x);
      ZeroDbls(i - 8);
    }
  }

  lemma NoDbls(y: bv32)
    ensures Dbls(0, y) == y
  {
  }

  lemma {:induction false} DblsSplit(m: nat, n: nat, x: bv32)
    ensures Dbls(m + n, x) == Dbls(n, Dbls(m, x))
    decreases m
  {
    hide Dbl;
    if m > 0 { DblsSplit(m - 1, n, Dbl(x)); }
  }

  lemma {:induction false} ZeroDbls(n: nat)
    ensures !Top(Dbls(n, 0))
    decreases n
  {
    if n > 0 { ZeroDbls(n - 1); }
  }

  lemma Crc8Constants()
    ensures StepsBv(8, 0x5500_0000, 0x0700_0000) == 0xAC00_0000 && Add(0xAC00_0000, 0x5500_0000) == 0xF900_0000
  {
  }

  lemma Crc8Values()
    ensures Horner(2, 0, 0x5500_0000) == 0x55 && Horner(2, 0, 0x0700_0000) == 0x07
    ensures Horner(2, 0, 0xAC00_0000) == 0xAC && Horner(2, 0, 0xF900_0000) == 0xF9
  {
  }

  /** CRC-8 (ITU-T). */
  lemma Crc8Magic(init: nat, data: seq<byte>)
    ensures var checksum := Xor(Crc(Normal, 8, 0x07, init, data, false), 0x55);
            Xor(Crc(Normal, 8, 0x07, init, data + Trailer(Normal, checksum, 1), false), 0x55) == 0xF9
  {
    hide Word, Reg, Xor, Feed, Value, MsgBits, Trailer, Steps, StepsBv, Add, Horner, Zeros;
    Residue(Normal, 1, 0x07, init, 0x55, data);
    Crc8Constants();
    Crc8Values();
    ByteWord(0x5500_0000);
    ByteWord(0x0700_0000);
    ByteWord(0xAC00_0000);
    ByteWord(0xF900_0000);
    WordSteps(8, 0x5500_0000, 0x0700_0000);
    StepsPadded(8, Reg(Normal, 0x55, 8), Reg(Normal, 0x07, 8), 24);
    SamePrefix(Steps(8, Reg(Normal, 0x55, 8), Reg(Normal, 0x07, 8)), Reg(Normal, 0xAC, 8), Zeros(24));
    assert Pow2(8) == 256;
    RegValue(Normal, 0xAC, 8);
    WordAdd(0xAC00_0000, 0x5500_0000);
    XorAppend(Reg(Normal, 0xAC, 8), Zeros(24), Reg(Normal, 0x55, 8), Zeros(24));
    var z := XorS(Zeros(24), Zeros(24));
    RegXor(Normal, 0xAC, 0x55, 8);
    XorRange(0xAC, 0x55, 8);
    assert Reg(Normal, Xor(0xAC, 0x55), 8) == (Reg(Normal, 0xF9, 8) + Zeros(24))[..8];
    RegValue(Normal, Xor(0xAC, 0x55), 8);
    RegValue(Normal, 0xF9, 8);
  }

  lemma SamePrefix(a: bits, b: bits, z: bits)
    requires |a| == |b| && a + z == b + z
    ensures a == b
  {
    assert a == (a + z)[..|a|] && b == (b + z)[..|b|];
  }

  lemma XorAppend(a: bits, b: bits, c: bits, d: bits)
    requires |a| == |c| && |b| == |d|
    ensures XorS(a + b, c + d) == XorS(a, c) + XorS(b, d)
  {
  }
}
