/**
 Words of 32 bits: masks, searches and bytes of a word, bit by bit (used by src/container/BitField.cpp).
 */
module WordBits {
  import opened UInt

  const W: nat := 32

  type word = v: nat | v < 0x1_0000_0000

  lemma WordRange()
    ensures Pow2(W) == 0x1_0000_0000
  {
    assert Pow2(8) == 256;
    Pow2Byte(8);
    Pow2Byte(16);
    Pow2Byte(24);
  }

  // ---------------------------------------------------------------- operators on words

  const MAX: word := 0xFFFF_FFFF

  function WAnd(a: word, b: word): word { And(a, b) }

  function WOr(a: word, b: word): word
  {
    WordRange();
    OrRange(a, b, W);
    Or(a, b)
  }

  function WNot(a: word): word
  {
    WordRange();
    Not(a, W)
  }

  /** a << k, truncated. */
  function WShl(a: word, k: nat): word
  {
    WordRange();
    Low(Shl(a, k), W)
  }

  lemma WAndBit(a: word, b: word, i: nat)
    ensures Bit(WAnd(a, b), i) == (Bit(a, i) && Bit(b, i))
  {
    AndBit(a, b, i);
  }

  lemma WOrBit(a: word, b: word, i: nat)
    ensures Bit(WOr(a, b), i) == (Bit(a, i) || Bit(b, i))
  {
    OrBit(a, b, i);
  }

  lemma WNotBit(a: word, i: nat)
    requires i < W
    ensures Bit(WNot(a), i) == !Bit(a, i)
  {
    hide Pow2;
    WordRange();
    NotBit(a, W, i);
  }

  /** MAX << k. */
  lemma UpperBit(k: nat, i: nat)
    ensures Bit(WShl(MAX, k), i) == (k <= i < W)
  {
    hide Bit, Low, Shl, Pow2;
    WordRange();
    LowBit(Shl(MAX, k), W, i);
    ShlBit(MAX, k, i);
    if i >= k { OnesBit(W, i - k); }
  }

  /** 1 << k. */
  lemma SingleBit(k: nat, i: nat)
    requires k < W
    ensures Bit(WShl(1, k), i) == (i == k)
  {
    hide Low, Shl, Pow2;
    WordRange();
    LowBit(Shl(1, k), W, i);
    ShlBit(1, k, i);
    if i > k { ZeroBit(i - k - 1); assert Bit(1, i - k) == Bit(0, i - k - 1); }
  }

  /** (a & (1 << k)) != 0. */
  lemma TestBit(a: word, k: nat)
    requires k < W
    ensures WAnd(a, WShl(1, k)) != 0 <==> Bit(a, k)
  {
    hide Low, Shl, Pow2, And, Bit;
    assert Pow2(1) == 2 by { TwoIs(); }
    ShlRange(1, 1, k);
    Pow2Mono(1 + k, W);
    LowId(Shl(1, k), W);
    AndPower(a, k);
    ShlPositive(k);
  }

  lemma TwoIs()
    ensures Pow2(1) == 2
  {
  }

  /** Words with the same bits are the same. */
  lemma {:induction false} SameBits(a: nat, b: nat, w: nat)
    requires a < Pow2(w) && b < Pow2(w) && forall i: nat :: i < w ==> Bit(a, i) == Bit(b, i)
    ensures a == b
    decreases w
  {
    if w > 0 {
      forall i: nat | i < w - 1 ensures Bit(a / 2, i) == Bit(b / 2, i) { assert Bit(a, i + 1) == Bit(b, i + 1); }
      SameBits(a / 2, b / 2, w - 1);
      assert Bit(a, 0) == Bit(b, 0);
    }
  }

  // ---------------------------------------------------------------- searches in a word

  /** Position of the first bit from i on that has value b; W if there is none. */
  function FirstFrom(v: word, b: bool, i: nat): (r: nat)
    requires i <= W
    ensures i <= r <= W
    ensures forall k: nat :: i <= k < r ==> Bit(v, k) != b
    ensures r < W ==> Bit(v, r) == b
    decreases W - i
  {
    if i == W || Bit(v, i) == b then i else FirstFrom(v, b, i + 1)
  }

  /** One more than the position of the last bit below i that has value b; 0 if there is none. */
  function LastBelow(v: word, b: bool, i: nat): (r: nat)
    requires i <= W
    ensures r <= i
    ensures forall k: nat :: r <= k < i ==> Bit(v, k) != b
    ensures r > 0 ==> Bit(v, r - 1) == b
    decreases i
  {
    if i == 0 || Bit(v, i - 1) == b then i else LastBelow(v, b, i - 1)
  }

  function CountTrailingZeros(v: word): nat { FirstFrom(v, true, 0) }
  function CountTrailingOnes(v: word): nat { FirstFrom(v, false, 0) }
  function CountLeadingZeros(v: word): nat { W - LastBelow(v, true, W) }
  function CountLeadingOnes(v: word): nat { W - LastBelow(v, false, W) }

  // ---------------------------------------------------------------- bytes of a word, little-endian

  function ByteOf(v: word, j: nat): byte
    requires j < 4
  {
    FewByte(ToBits(v, W)[8 * j..8 * j + 8])
  }

  function FewByte(s: seq<bool>): byte
    requires |s| == 8
  {
    assert Pow2(8) == 256;
    FromBits(s)
  }

  function WithByte(v: word, j: nat, b: byte): word
    requires j < 4
  {
    var s := ToBits(v, W)[..8 * j] + ToBits(b, 8) + ToBits(v, W)[8 * j + 8..];
    WordRange();
    FromBits(s)
  }

  lemma ByteOfBit(v: word, j: nat, i: nat)
    requires j < 4 && i < 8
    ensures Bit(ByteOf(v, j), i) == Bit(v, 8 * j + i)
  {
    hide ToBits, FromBits, Bit, Pow2;
    var s := ToBits(v, W)[8 * j..8 * j + 8];
    ToFromBits(s);
    ToBitsAt(FromBits(s), 8, i);
    ToBitsAt(v, W, 8 * j + i);
  }

  lemma WithByteBit(v: word, j: nat, b: byte, i: nat)
    requires j < 4 && i < W
    ensures Bit(WithByte(v, j, b), i) == if 8 * j <= i < 8 * j + 8 then Bit(b, i - 8 * j) else Bit(v, i)
  {
    hide ToBits, FromBits, Bit, Pow2;
    var s := ToBits(v, W)[..8 * j] + ToBits(b, 8) + ToBits(v, W)[8 * j + 8..];
    ToFromBits(s);
    ToBitsAt(FromBits(s), W, i);
    ToBitsAt(v, W, i);
    if 8 * j <= i < 8 * j + 8 { ToBitsAt(b, 8, i - 8 * j); }
  }
}
