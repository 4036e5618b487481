/**
 Cyclic redundancy checks as a shift register that takes in one message bit per step, and the algebra behind the
 table-driven form of src/crc/simple_crc.cpp: the register is linear, a whole byte is one table look-up, the normal and
 the reflected form mirror each other, and a message followed by its own checksum leaves a constant.

 A register is a sequence of bits in stream order: its first bit is the next one to be shifted out.
 */
module CrcSpec {
  import opened UInt
  import opened StreamSpec

  type bits = seq<bool>

  function XorS(a: bits, b: bits): (r: bits)
    requires |a| == |b|
    ensures |r| == |a| && forall i :: 0 <= i < |r| ==> r[i] == (a[i] != b[i])
  {
    seq(|a|, i requires 0 <= i < |a| => a[i] != b[i])
  }

  function Zeros(n: nat): (r: bits)
    ensures |r| == n && forall i :: 0 <= i < n ==> !r[i]
  {
    Const(n, false)
  }

  /** One shift: the bit that falls out decides whether the polynomial is added. */
  function Step(reg: bits, p: bits): (r: bits)
    requires |reg| == |p| > 0
    ensures |r| == |p|
  {
    XorS(reg[1..] + [false], if reg[0] then p else Zeros(|p|))
  }

  function Steps(n: nat, reg: bits, p: bits): (r: bits)
    requires |reg| == |p| > 0
    ensures |r| == |p|
    decreases n
  {
    if n == 0 then reg else Steps(n - 1, Step(reg, p), p)
  }

  /** The bit-serial CRC register: each message bit is added to the bit that falls out next. */
  function Feed(reg: bits, msg: bits, p: bits): (r: bits)
    requires |reg| == |p| > 0
    ensures |r| == |p|
    decreases |msg|
  {
    if msg == [] then reg else Feed(Step(reg[0 := reg[0] != msg[0]], p), msg[1..], p)
  }

  // ---------------------------------------------------------------- numbers as registers

  /** Normal: shifted to the left, most significant bit first. Reflected: shifted to the right. */
  datatype Form = Normal | Reflected

  function Mirror(f: Form, s: bits): (r: bits)
    ensures |r| == |s|
  {
    if f == Normal then Reverse(s) else s
  }

  function Reg(f: Form, v: nat, w: nat): (r: bits)
    ensures |r| == w
  {
    Mirror(f, ToBits(v, w))
  }

  function Value(f: Form, s: bits): nat { FromBits(Mirror(f, s)) }

  /** The bits of a message in the order in which they are fed; `reverse` is the reversal of input data bits. */
  function MsgBits(f: Form, data: seq<byte>, reverse: bool): (r: bits)
    ensures |r| == 8 * |data|
    decreases |data|
  {
    if data == [] then [] else ByteBits(f, data[0], reverse) + MsgBits(f, data[1..], reverse)
  }

  function ByteBits(f: Form, c: byte, reverse: bool): (r: bits)
    ensures |r| == 8
  {
    Reg(if reverse then Other(f) else f, c, 8)
  }

  function Other(f: Form): Form { if f == Normal then Reflected else Normal }

  /** The CRC of data with polynomial p and start value crc, bit by bit. */
  function Crc(f: Form, w: nat, p: nat, crc: nat, data: seq<byte>, reverse: bool): nat
    requires w > 0
  {
    Value(f, Feed(Reg(f, crc, w), MsgBits(f, data, reverse), Reg(f, p, w)))
  }

  function ReverseBits(v: nat, w: nat): nat { FromBits(Reverse(ToBits(v, w))) }

  // ---------------------------------------------------------------- the register is linear

  lemma StepLinear(a: bits, b: bits, p: bits)
    requires |a| == |b| == |p| > 0
    ensures Step(XorS(a, b), p) == XorS(Step(a, p), Step(b, p))
  {
  }

  lemma {:induction false} StepsLinear(n: nat, a: bits, b: bits, p: bits)
    requires |a| == |b| == |p| > 0
    ensures Steps(n, XorS(a, b), p) == XorS(Steps(n, a, p), Steps(n, b, p))
    decreases n
  {
    hide Step, XorS;
    if n > 0 {
      StepLinear(a, b, p);
      StepsLinear(n - 1, Step(a, p), Step(b, p), p);
    }
  }

  /** The CRC of the sum of two messages of the same length is the sum of their CRCs. */
  lemma {:induction false} FeedLinear(a: bits, b: bits, m: bits, n: bits, p: bits)
    requires |a| == |b| == |p| > 0 && |m| == |n|
    ensures Feed(XorS(a, b), XorS(m, n), p) == XorS(Feed(a, m, p), Feed(b, n, p))
    decreases |m|
  {
    hide Step;
    if m != [] {
      var a', b' := a[0 := a[0] != m[0]], b[0 := b[0] != n[0]];
      var x := XorS(a, b);
      assert x[0 := x[0] != XorS(m, n)[0]] == XorS(a', b');
      assert XorS(m, n)[1..] == XorS(m[1..], n[1..]);
      StepLinear(a', b', p);
      FeedLinear(Step(a', p), Step(b', p), m[1..], n[1..], p);
    }
  }

  /** Leading zeros fall out without effect. */
  lemma {:induction false} StepsShift(n: nat, t: bits, p: bits)
    requires n + |t| == |p| > 0
    ensures Steps(n, Zeros(n) + t, p) == t + Zeros(n)
    decreases n
  {
    if n == 0 {
      assert Zeros(0) + t == t && t + Zeros(0) == t;
    } else {
      var x := Zeros(n) + t;
      assert Step(x, p) == Zeros(n - 1) + (t + [false]);
      StepsShift(n - 1, t + [false], p);
      assert t + [false] + Zeros(n - 1) == t + Zeros(n);
    }
  }

  lemma StepZeroFirst(u: bits, p: bits)
    requires |u| + 1 == |p|
    ensures Step([false] + u, p) == u + [false]
  {
  }

  /** Feeding up to |reg| bits one by one is adding them all at once and shifting. */
  lemma {:induction false} FeedIsSteps(reg: bits, msg: bits, p: bits)
    requires |reg| == |p| > 0 && |msg| <= |reg|
    ensures Feed(reg, msg, p) == Steps(|msg|, XorS(reg, msg + Zeros(|p| - |msg|)), p)
    decreases |msg|
  {
    hide Step;
    var x := XorS(reg, msg + Zeros(|p| - |msg|));
    if msg == [] {
      assert x == reg;
    } else {
      var first := reg[0 := reg[0] != msg[0]];
      var rest := msg[1..] + Zeros(|p| - |msg|);
      assert x == XorS(first, [false] + rest);
      StepLinear(first, [false] + rest, p);
      StepZeroFirst(rest, p);
      assert rest + [false] == msg[1..] + Zeros(|p| - |msg[1..]|);
      FeedIsSteps(Step(first, p), msg[1..], p);
    }
  }

  /** What the table holds for index i: eight shifts of a register that starts with i. */
  function Entry(index: bits, p: bits): (r: bits)
    requires |index| == 8 <= |p|
    ensures |r| == |p|
  {
    Steps(8, index + Zeros(|p| - 8), p)
  }

  lemma Halves(reg: bits, c: bits, z: bits)
    requires |c| == 8 && |reg| == 8 + |z| && z == Zeros(|z|)
    ensures XorS(reg, c + z) == XorS(XorS(reg[..8], c) + z, Zeros(8) + reg[8..])
  {
  }

  /** A whole byte at once: look up the table for the bits that fall out, and shift the others. */
  lemma FeedByte(reg: bits, c: bits, p: bits)
    requires |reg| == |p| >= 8 && |c| == 8
    ensures Feed(reg, c, p) == XorS(Entry(XorS(reg[..8], c), p), reg[8..] + Zeros(8))
  {
    hide Step, Steps, Feed, XorS;
    var z := Zeros(|p| - 8);
    FeedIsSteps(reg, c, p);
    var hi, lo := XorS(reg[..8], c) + z, Zeros(8) + reg[8..];
    Halves(reg, c, z);
    StepsLinear(8, hi, lo, p);
    StepsShift(8, reg[8..], p);
  }

  lemma {:induction false} FeedAppend(reg: bits, m: bits, n: bits, p: bits)
    requires |reg| == |p| > 0
    ensures Feed(reg, m + n, p) == Feed(Feed(reg, m, p), n, p)
    decreases |m|
  {
    hide Step;
    if m == [] {
      assert m + n == n;
    } else {
      assert (m + n)[1..] == m[1..] + n;
      FeedAppend(Step(reg[0 := reg[0] != m[0]], p), m[1..], n, p);
    }
  }

  /** Feeding a register its own content, plus x, shifts x through: the message is forgotten. */
  lemma FeedOwn(reg: bits, x: bits, p: bits)
    requires |reg| == |x| == |p| > 0
    ensures Feed(reg, XorS(reg, x), p) == Steps(|p|, x, p)
  {
    hide Step, Steps, Feed;
    FeedIsSteps(reg, XorS(reg, x), p);
    assert XorS(reg, XorS(reg, x) + Zeros(0)) == x;
  }

  // ---------------------------------------------------------------- numbers and bits

  lemma {:induction false} XorBits(a: nat, b: nat, w: nat)
    ensures ToBits(Xor(a, b), w) == XorS(ToBits(a, w), ToBits(b, w))
    decreases w
  {
    hide XorS;
    if w > 0 {
      XorBits(a / 2, b / 2, w - 1);
      XorFirst(a, b);
      XorCons(a % 2 == 1, ToBits(a / 2, w - 1), b % 2 == 1, ToBits(b / 2, w - 1));
    } else {
      assert XorS(ToBits(a, 0), ToBits(b, 0)) == [];
    }
  }

  lemma XorCons(x: bool, a: bits, y: bool, b: bits)
    requires |a| == |b|
    ensures XorS([x] + a, [y] + b) == [x != y] + XorS(a, b)
  {
  }

  lemma MirrorXor(f: Form, a: bits, b: bits)
    requires |a| == |b|
    ensures Mirror(f, XorS(a, b)) == XorS(Mirror(f, a), Mirror(f, b))
  {
    hide Reverse;
    var x := XorS(a, b);
    forall i | 0 <= i < |x| ensures Reverse(x)[i] == (Reverse(a)[i] != Reverse(b)[i]) {
      ReverseAt(x, i);
      ReverseAt(a, i);
      ReverseAt(b, i);
    }
  }

  lemma RegXor(f: Form, a: nat, b: nat, w: nat)
    ensures Reg(f, Xor(a, b), w) == XorS(Reg(f, a, w), Reg(f, b, w))
  {
    hide XorS, Reverse, ToBits, Xor;
    XorBits(a, b, w);
    MirrorXor(f, ToBits(a, w), ToBits(b, w));
  }

  lemma MirrorTwice(f: Form, s: bits)
    ensures Mirror(f, Mirror(f, s)) == s
  {
    ReverseTwice(s);
  }

  lemma ValueReg(f: Form, s: bits)
    ensures Value(f, s) < Pow2(|s|) && Reg(f, Value(f, s), |s|) == s
  {
    hide ToBits, FromBits, Pow2, Mirror;
    ToFromBits(Mirror(f, s));
    MirrorTwice(f, s);
  }

  lemma RegValue(f: Form, v: nat, w: nat)
    requires v < Pow2(w)
    ensures Value(f, Reg(f, v, w)) == v
  {
    hide ToBits, FromBits, Pow2, Mirror;
    MirrorTwice(f, ToBits(v, w));
    FromToBits(v, w);
    LowId(v, w);
  }

  // ---------------------------------------------------------------- theorems about the CRC

  lemma {:induction false} MsgBitsAppend(f: Form, a: seq<byte>, b: seq<byte>, reverse: bool)
    ensures MsgBits(f, a + b, reverse) == MsgBits(f, a, reverse) + MsgBits(f, b, reverse)
    decreases |a|
  {
    hide ByteBits;
    if a == [] {
      assert a + b == b;
    } else {
      assert (a + b)[1..] == a[1..] + b;
      MsgBitsAppend(f, a[1..], b, reverse);
    }
  }

  /** Chunks may be processed one after the other. */
  lemma Chunks(f: Form, w: nat, p: nat, crc: nat, a: seq<byte>, b: seq<byte>, reverse: bool)
    requires w > 0
    ensures Crc(f, w, p, crc, a + b, reverse) == Crc(f, w, p, Crc(f, w, p, crc, a, reverse), b, reverse)
  {
    hide Feed, Reg, Value, MsgBits;
    MsgBitsAppend(f, a, b, reverse);
    FeedAppend(Reg(f, crc, w), MsgBits(f, a, reverse), MsgBits(f, b, reverse), Reg(f, p, w));
    ValueReg(f, Feed(Reg(f, crc, w), MsgBits(f, a, reverse), Reg(f, p, w)));
  }

  lemma {:induction false} MsgBitsDual(data: seq<byte>, reverse: bool)
    ensures MsgBits(Reflected, data, reverse) == MsgBits(Normal, data, !reverse)
    decreases |data|
  {
    if data != [] { MsgBitsDual(data[1..], reverse); }
  }

  lemma RegDual(v: nat, w: nat)
    ensures Reg(Reflected, ReverseBits(v, w), w) == Reg(Normal, v, w)
  {
    hide ToBits, FromBits, Reverse;
    ToFromBits(Reverse(ToBits(v, w)));
  }

  /** The reflected form with reversed polynomial and reversed start value computes the reversed result of the normal
      form that treats the input bits the other way round. */
  lemma Duality(w: nat, p: nat, crc: nat, data: seq<byte>, reverse: bool)
    requires w > 0
    ensures Crc(Reflected, w, ReverseBits(p, w), ReverseBits(crc, w), data, reverse) ==
            ReverseBits(Crc(Normal, w, p, crc, data, !reverse), w)
  {
    hide Feed, MsgBits, ToBits, FromBits, Reverse;
    MsgBitsDual(data, reverse);
    RegDual(p, w);
    RegDual(crc, w);
    var r := Feed(Reg(Normal, crc, w), MsgBits(Normal, data, !reverse), Reg(Normal, p, w));
    ToFromBits(Reverse(r));
    ReverseTwice(r);
  }

  /** The checksum a sender appends: high byte first in the normal form, low byte first in the reflected form. */
  function Trailer(f: Form, v: nat, n: nat): (d: seq<byte>)
    ensures |d| == n
  {
    if f == Normal then Reverse(LeBytes(v, n)) else LeBytes(v, n)
  }

  lemma {:induction false} LeBytesBits(v: nat, n: nat)
    ensures BytesBits(LeBytes(v, n)) == ToBits(v, 8 * n)
    decreases n
  {
    if n > 0 {
      LeBytesBits(v / 256, n - 1);
      ByteOfShift(v);
      ToBitsSplit(v, 8, 8 * (n - 1));
      LowEight(v);
    }
  }

  lemma ByteOfShift(v: nat)
    ensures Shr(v, 8) == v / 256 && Low(v, 8) == v % 256
  {
    hide Shr, Low, Shl, Pow2;
    PowEight();
    ShiftMeaning(v, 8);
    Quotient(v, Shr(v, 8), Low(v, 8));
  }

  lemma PowEight()
    ensures Pow2(8) == 256
  {
  }

  lemma Quotient(v: nat, q: nat, r: nat)
    requires v == q * 256 + r && r < 256
    ensures q == v / 256 && r == v % 256
  {
  }

  lemma LowEight(v: nat)
    ensures ToBits(v, 8) == ToBits(v % 256, 8)
  {
    hide ToBits;
    ByteOfShift(v);
    ToBitsLow(v, 8, 0);
    assert ToBits(v, 8) + [] == ToBits(v, 8);
  }

  lemma {:induction false} MsgBitsReflected(d: seq<byte>)
    ensures MsgBits(Reflected, d, false) == BytesBits(d)
  {
    if d != [] { MsgBitsReflected(d[1..]); }
  }

  lemma {:induction false} MsgBitsNormal(d: seq<byte>)
    ensures MsgBits(Normal, Reverse(d), false) == Reverse(BytesBits(d))
    decreases |d|
  {
    hide ToBits;
    if d != [] {
      MsgBitsNormal(d[1..]);
      var c := [d[0]];
      MsgBitsAppend(Normal, Reverse(d[1..]), c, false);
      assert MsgBits(Normal, c, false) == Reverse(ToBits(d[0], 8)) by { assert c[1..] == []; }
      ReverseAppend(ToBits(d[0], 8), BytesBits(d[1..]));
    }
  }

  lemma TrailerBits(f: Form, v: nat, n: nat)
    ensures MsgBits(f, Trailer(f, v, n), false) == Reg(f, v, 8 * n)
  {
    hide ToBits, BytesBits, LeBytes, Reverse;
    LeBytesBits(v, n);
    if f == Normal { MsgBitsNormal(LeBytes(v, n)); } else { MsgBitsReflected(LeBytes(v, n)); }
  }

  /** The value a register that holds v has after w shifts. */
  function Shifted(f: Form, w: nat, p: nat, v: nat): nat
    requires w > 0
  {
    Value(f, Steps(w, Reg(f, v, w), Reg(f, p, w)))
  }

  /** A receiver that runs the sender's algorithm, final xor included, over any message followed by its checksum gets a
      value that depends on neither the message nor the start value. */
  lemma Residue(f: Form, n: nat, p: nat, init: nat, xorOut: nat, data: seq<byte>)
    requires n > 0
    ensures var w := 8 * n;
            var checksum := Xor(Crc(f, w, p, init, data, false), xorOut);
            Xor(Crc(f, w, p, init, data + Trailer(f, checksum, n), false), xorOut) == Xor(Shifted(f, w, p, xorOut), xorOut)
  {
    hide Feed, Steps, Reg, Value, MsgBits, Trailer, Xor;
    var w := 8 * n;
    var crc := Crc(f, w, p, init, data, false);
    var checksum := Xor(crc, xorOut);
    Chunks(f, w, p, init, data, Trailer(f, checksum, n), false);
    TrailerBits(f, checksum, n);
    RegXor(f, crc, xorOut, w);
    FeedOwn(Reg(f, crc, w), Reg(f, xorOut, w), Reg(f, p, w));
  }
}
