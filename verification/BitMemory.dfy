/**
 Groups of up to eight bits at any bit position of a block of bytes, read and replaced with masks and shifts.
 */
module BitMemory {
  import opened UInt
  import opened StreamSpec

  /** s with the elements from lo on replaced by v. */
  function Splice<T>(s: seq<T>, lo: nat, v: seq<T>): (r: seq<T>)
    requires lo + |v| <= |s|
    ensures |r| == |s|
  {
    s[..lo] + v + s[lo + |v|..]
  }

  function Mask(n: nat): nat { Shl(1, n) - 1 }

  /** word with the n bits from off on replaced by those of v, as the code computes it. */
  function Replaced(word: nat, width: nat, off: nat, n: nat, v: nat): nat
    requires Shl(Mask(n), off) < Pow2(width)
  {
    Or(And(word, Not(Shl(Mask(n), off), width)), Shl(And(v, Mask(n)), off))
  }

  lemma {:induction false} MaskIs(n: nat)
    ensures Mask(n) == Pow2(n) - 1
  {
    if n > 0 { MaskIs(n - 1); }
  }

  lemma {:induction false} MaskBit(n: nat, i: nat)
    ensures Bit(Mask(n), i) == (i < n)
    decreases i
  {
    if n == 0 {
      ZeroBit(i);
    } else if i > 0 {
      MaskBit(n - 1, i - 1);
      assert Mask(n) / 2 == Mask(n - 1);
    }
  }

  lemma ShiftedMaskRange(n: nat, off: nat, width: nat)
    requires off + n <= width
    ensures Shl(Mask(n), off) < Pow2(width)
  {
    MaskIs(n);
    ShlRange(Mask(n), n, off);
    Pow2Mono(n + off, width);
  }

  lemma ReplacedBit(word: nat, width: nat, off: nat, n: nat, v: nat, i: nat)
    requires off + n <= width && i < width
    ensures Shl(Mask(n), off) < Pow2(width)
    ensures Bit(Replaced(word, width, off, n, v), i) == if off <= i < off + n then Bit(v, i - off) else Bit(word, i)
  {
    hide Bit, Shl, Or, And, Not, Pow2, Mask;
    ShiftedMaskRange(n, off, width);
    var m := Shl(Mask(n), off);
    OrBit(And(word, Not(m, width)), Shl(And(v, Mask(n)), off), i);
    AndBit(word, Not(m, width), i);
    NotBit(m, width, i);
    ShlBit(Mask(n), off, i);
    ShlBit(And(v, Mask(n)), off, i);
    if i >= off {
      AndBit(v, Mask(n), i - off);
      MaskBit(n, i - off);
    }
  }

  /** Masking a group of bits out and or-ing another one in replaces exactly these bits. */
  lemma ReplacedBits(word: nat, width: nat, off: nat, n: nat, v: nat)
    requires off + n <= width && word < Pow2(width)
    ensures Shl(Mask(n), off) < Pow2(width)
    ensures ToBits(Replaced(word, width, off, n, v), width) == Splice(ToBits(word, width), off, ToBits(v, n))
    ensures Replaced(word, width, off, n, v) < Pow2(width)
  {
    hide Bit, Shl, Or, And, Not, Pow2, Mask, ToBits;
    ShiftedMaskRange(n, off, width);
    var r := Replaced(word, width, off, n, v);
    var s := Splice(ToBits(word, width), off, ToBits(v, n));
    forall i | 0 <= i < width ensures ToBits(r, width)[i] == s[i] {
      ToBitsAt(r, width, i);
      ToBitsAt(word, width, i);
      ReplacedBit(word, width, off, n, v, i);
      if off <= i < off + n { ToBitsAt(v, n, i - off); }
    }
    AndMask(v, n);
    ShlRange(Low(v, n), n, off);
    Pow2Mono(n + off, width);
    MaskWas(n);
    OrRange(And(word, Not(Shl(Mask(n), off), width)), Shl(And(v, Mask(n)), off), width);
  }

  lemma MaskWas(n: nat)
    ensures Mask(n) == Shl(1, n) - 1
  {
  }

  /** Two neighbouring bytes as one word. */
  lemma TwoByteBits(b0: byte, b1: byte)
    ensures ToBits(Or(b0, Shl(b1, 8)), 16) == ToBits(b0, 8) + ToBits(b1, 8)
    ensures Or(b0, Shl(b1, 8)) < Pow2(16)
  {
    hide ToBits, Or, Shl;
    assert Pow2(8) == 256;
    OrDisjoint(b0, b1, 8);
    ToBitsShl(b0, b1, 8, 8);
    Shl8(b1);
    Pow2Byte(8);
  }

  /** A word back as two bytes. */
  lemma WordBytes(w: nat)
    requires w < Pow2(16)
    ensures Low(w, 8) < 256 && Low(Shr(w, 8), 8) < 256
    ensures ToBits(Low(w, 8), 8) + ToBits(Low(Shr(w, 8), 8), 8) == ToBits(w, 16)
  {
    hide ToBits, Low, Shr;
    assert Pow2(8) == 256;
    ToBitsSplit(w, 8, 8);
    ToBitsLow(w, 8, 0);
    ToBitsLow(Shr(w, 8), 8, 0);
    assert ToBits(w, 8) + [] == ToBits(w, 8);
    assert ToBits(Shr(w, 8), 8) + [] == ToBits(Shr(w, 8), 8);
  }

  /** Replacing bytes replaces their bits. */
  lemma SpliceBytes(mem: seq<byte>, p: nat, d: seq<byte>)
    requires p + |d| <= |mem|
    ensures BytesBits(Splice(mem, p, d)) == Splice(BytesBits(mem), 8 * p, BytesBits(d))
  {
    hide BytesBits;
    var a, b, c := mem[..p], mem[p..p + |d|], mem[p + |d|..];
    BytesBitsAppend(a, d);
    BytesBitsAppend(a + d, c);
    BytesBitsAppend(a, b);
    BytesBitsAppend(a + b, c);
    assert mem == a + b + c;
  }

  lemma SubSlice<T>(s: seq<T>, a: nat, k: nat, off: nat, n: nat)
    requires off + n <= k && a + k <= |s|
    ensures s[a..a + k][off..off + n] == s[a + off..a + off + n]
  {
    var t, u := s[a..a + k], s[a + off..a + off + n];
    forall i | 0 <= i < n ensures t[off..off + n][i] == u[i] {
      assert t[off + i] == s[a + (off + i)];
    }
  }

  lemma SpliceInside<T>(s: seq<T>, p: nat, k: nat, off: nat, v: seq<T>)
    requires p + k <= |s| && off + |v| <= k
    ensures Splice(s, p, Splice(s[p..p + k], off, v)) == Splice(s, p + off, v)
  {
  }

  /** Replacing bits in one byte of a block. */
  lemma ReplacedInByte(mem: seq<byte>, p: nat, off: nat, n: nat, v: nat)
    requires p < |mem| && off + n <= 8
    ensures Shl(Mask(n), off) < Pow2(8)
    ensures var r := Replaced(mem[p], 8, off, n, v);
            r < 256 && BytesBits(mem[p := r]) == Splice(BytesBits(mem), 8 * p + off, ToBits(v, n))
  {
    hide ToBits, BytesBits, Replaced, Splice;
    assert Pow2(8) == 256;
    ReplacedBits(mem[p], 8, off, n, v);
    var r := Replaced(mem[p], 8, off, n, v);
    BytesSlice(mem, p, p + 1);
    assert mem[p..p + 1] == [mem[p]];
    BytesBitsOne(mem[p]);
    BytesBitsOne(r);
    SpliceOne(mem, p, r);
    SpliceInside(BytesBits(mem), 8 * p, 8, off, ToBits(v, n));
  }

  lemma SpliceOne(mem: seq<byte>, p: nat, b: byte)
    requires p < |mem|
    ensures BytesBits(mem[p := b]) == Splice(BytesBits(mem), 8 * p, BytesBits([b]))
  {
    hide BytesBits;
    SpliceBytes(mem, p, [b]);
    assert mem[p := b] == Splice(mem, p, [b]);
  }

  /** Replacing bits in two neighbouring bytes of a block. */
  lemma ReplacedInWord(mem: seq<byte>, p: nat, off: nat, n: nat, v: nat)
    requires p + 1 < |mem| && off + n <= 16
    ensures Shl(Mask(n), off) < Pow2(16)
    ensures var r := Replaced(Or(mem[p], Shl(mem[p + 1], 8)), 16, off, n, v);
            && r < Pow2(16) && Low(r, 8) < 256 && Low(Shr(r, 8), 8) < 256
            && BytesBits(mem[p := Low(r, 8)][p + 1 := Low(Shr(r, 8), 8)]) == Splice(BytesBits(mem), 8 * p + off, ToBits(v, n))
  {
    hide ToBits, BytesBits, Replaced, Splice, Low, Shr, Or, Shl, Pow2, Mask;
    var w := Or(mem[p], Shl(mem[p + 1], 8));
    TwoByteBits(mem[p], mem[p + 1]);
    ReplacedBits(w, 16, off, n, v);
    var r := Replaced(w, 16, off, n, v);
    WordBytes(r);
    BytesSlice(mem, p, p + 2);
    TwoBytes(mem[p], mem[p + 1]);
    assert mem[p..p + 2] == [mem[p], mem[p + 1]];
    TwoBytes(Low(r, 8), Low(Shr(r, 8), 8));
    SpliceTwo(mem, p, Low(r, 8), Low(Shr(r, 8), 8));
    SpliceInside(BytesBits(mem), 8 * p, 16, off, ToBits(v, n));
  }

  lemma TwoBytes(b0: byte, b1: byte)
    ensures BytesBits([b0, b1]) == ToBits(b0, 8) + ToBits(b1, 8)
  {
    hide ToBits, BytesBits;
    assert [b0, b1] == [b0] + [b1];
    BytesBitsAppend([b0], [b1]);
    BytesBitsOne(b0);
    BytesBitsOne(b1);
  }

  lemma SpliceTwo(mem: seq<byte>, p: nat, b0: byte, b1: byte)
    requires p + 1 < |mem|
    ensures BytesBits(mem[p := b0][p + 1 := b1]) == Splice(BytesBits(mem), 8 * p, BytesBits([b0, b1]))
  {
    hide BytesBits;
    SpliceBytes(mem, p, [b0, b1]);
    assert mem[p := b0][p + 1 := b1] == Splice(mem, p, [b0, b1]);
  }

  /** Reading a group of bits out of one byte. */
  lemma BitsInByte(mem: seq<byte>, p: nat, off: nat, n: nat)
    requires p < |mem| && off + n <= 8
    ensures ToBits(Shr(mem[p], off), n) == BytesBits(mem)[8 * p + off..8 * p + off + n]
  {
    hide ToBits, BytesBits, Shr;
    BytesSlice(mem, p, p + 1);
    assert mem[p..p + 1] == [mem[p]];
    BytesBitsOne(mem[p]);
    BitsInValue(mem[p], 8, off, n);
    SubSlice(BytesBits(mem), 8 * p, 8, off, n);
  }

  /** Reading a group of bits out of two neighbouring bytes. */
  lemma BitsInWord(mem: seq<byte>, p: nat, off: nat, n: nat)
    requires p + 1 < |mem| && off + n <= 16
    ensures ToBits(Shr(Or(mem[p], Shl(mem[p + 1], 8)), off), n) == BytesBits(mem)[8 * p + off..8 * p + off + n]
  {
    hide ToBits, BytesBits, Shr, Or, Shl;
    BytesSlice(mem, p, p + 2);
    assert mem[p..p + 2] == [mem[p], mem[p + 1]];
    TwoBytes(mem[p], mem[p + 1]);
    TwoByteBits(mem[p], mem[p + 1]);
    BitsInValue(Or(mem[p], Shl(mem[p + 1], 8)), 16, off, n);
    SubSlice(BytesBits(mem), 8 * p, 16, off, n);
  }

  lemma BitsInValue(v: nat, width: nat, off: nat, n: nat)
    requires off + n <= width
    ensures ToBits(v, width)[off..off + n] == ToBits(Shr(v, off), n)
  {
    hide ToBits, Shr;
    ToBitsSplit(v, off, width - off);
    ToBitsSplit(Shr(v, off), n, width - off - n);
  }
}
