/**
 Unsigned machine integers as natural numbers.

 A value of an n-bit C++ type is a `nat` below Pow2(n). Shifts and bitwise operators are defined bit by bit, so that
 every fact about them is a short induction; ShiftMeaning relates them to multiplication and division.
 */
module UInt {

  type byte = b: nat | b < 256

  function Pow2(n: nat): (r: nat)
    ensures r > 0
  {
    if n == 0 then 1 else 2 * Pow2(n - 1)
  }

  function B2N(b: bool): nat { if b then 1 else 0 }

  /** v << k, without truncation. */
  function Shl(v: nat, k: nat): (r: nat)
    ensures r >= v
    decreases k
  {
    if k == 0 then v else 2 * Shl(v, k - 1)
  }

  /** v >> k. */
  function Shr(v: nat, k: nat): (r: nat)
    ensures r <= v
    decreases k
  {
    if k == 0 then v else Shr(v / 2, k - 1)
  }

  /** The k low bits of v: v & ((1 << k) - 1), and also truncation to k bits. */
  function Low(v: nat, k: nat): (r: nat)
    ensures r < Pow2(k) && r <= v
    decreases k
  {
    if k == 0 then 0 else v % 2 + 2 * Low(v / 2, k - 1)
  }

  function And(a: nat, b: nat): (r: nat)
    ensures r <= a && r <= b
  {
    if a == 0 || b == 0 then 0 else B2N(a % 2 == 1 && b % 2 == 1) + 2 * And(a / 2, b / 2)
  }

  function Or(a: nat, b: nat): nat
    decreases a + b
  {
    if a == 0 then b else if b == 0 then a else B2N(a % 2 == 1 || b % 2 == 1) + 2 * Or(a / 2, b / 2)
  }

  function Xor(a: nat, b: nat): nat
    decreases a + b
  {
    if a == 0 then b else if b == 0 then a else B2N((a % 2 == 1) != (b % 2 == 1)) + 2 * Xor(a / 2, b / 2)
  }

  /** Bitwise complement of a w-bit value. */
  function Not(a: nat, w: nat): nat
    requires a < Pow2(w)
  {
    Pow2(w) - 1 - a
  }

  function Bit(v: nat, i: nat): bool
    decreases i
  {
    if i == 0 then v % 2 == 1 else Bit(v / 2, i - 1)
  }

  /** The w low bits of v, least significant first. */
  function ToBits(v: nat, w: nat): (r: seq<bool>)
    ensures |r| == w
    decreases w
  {
    if w == 0 then [] else [v % 2 == 1] + ToBits(v / 2, w - 1)
  }

  function FromBits(s: seq<bool>): (r: nat)
    ensures r < Pow2(|s|)
  {
    if s == [] then 0 else B2N(s[0]) + 2 * FromBits(s[1..])
  }

  // ---------------------------------------------------------------- shifts and powers of two

  lemma {:induction false} Pow2Mono(a: nat, b: nat)
    requires a <= b
    ensures Pow2(a) <= Pow2(b)
  {
    if a < b { Pow2Mono(a, b - 1); }
  }

  lemma Pow2Byte(n: nat)
    ensures Pow2(n + 8) == 256 * Pow2(n)
  {
    assert Pow2(n + 4) == 2 * Pow2(n + 3) == 4 * Pow2(n + 2) == 8 * Pow2(n + 1);
    assert Pow2(n + 8) == 2 * Pow2(n + 7) == 4 * Pow2(n + 6) == 8 * Pow2(n + 5);
  }

  /** Shl multiplies by, Shr divides by, and Low is the remainder of, a power of two. */
  lemma {:induction false} ShiftMeaning(v: nat, k: nat)
    ensures Shl(v, k) == v * Pow2(k)
    ensures v == Shr(v, k) * Pow2(k) + Low(v, k)
    decreases k
  {
    if k > 0 {
      ShiftMeaning(v, k - 1);
      ShiftMeaning(v / 2, k - 1);
      MulDouble(v, Pow2(k - 1));
      MulDouble(Shr(v / 2, k - 1), Pow2(k - 1));
    }
  }

  lemma MulDouble(f: nat, p: nat)
    ensures 2 * (f * p) == f * (2 * p)
  {
  }

  lemma {:induction false} LowId(v: nat, k: nat)
    requires v < Pow2(k)
    ensures Low(v, k) == v && Shr(v, k) == 0
    decreases k
  {
    if k > 0 { LowId(v / 2, k - 1); }
  }

  /** (a + (b << k)) splits again into a and b. */
  lemma {:induction false} ShlSplit(a: nat, b: nat, k: nat)
    requires a < Pow2(k)
    ensures Low(a + Shl(b, k), k) == a && Shr(a + Shl(b, k), k) == b
    decreases k
  {
    if k > 0 {
      ShlSplit(a / 2, b, k - 1);
      assert (a + Shl(b, k)) / 2 == a / 2 + Shl(b, k - 1);
    }
  }

  /** Or of values that share no bit is their sum. */
  lemma {:induction false} OrDisjoint(a: nat, b: nat, k: nat)
    requires a < Pow2(k)
    ensures Or(a, Shl(b, k)) == a + Shl(b, k)
    decreases k
  {
    if k > 0 && a > 0 && Shl(b, k) > 0 { OrDisjoint(a / 2, b, k - 1); }
  }

  lemma {:induction false} OrCommutes(a: nat, b: nat)
    ensures Or(a, b) == Or(b, a)
    decreases a
  {
    if a > 0 && b > 0 { OrCommutes(a / 2, b / 2); }
  }

  lemma {:induction false} ShlAdd(v: nat, a: nat, b: nat)
    ensures Shl(Shl(v, a), b) == Shl(v, a + b)
    decreases b
  {
    if b > 0 { ShlAdd(v, a, b - 1); }
  }

  lemma {:induction false} ShlPlus(u: nat, v: nat, k: nat)
    ensures Shl(u + v, k) == Shl(u, k) + Shl(v, k)
    decreases k
  {
    if k > 0 { ShlPlus(u, v, k - 1); }
  }

  lemma Shl8(v: nat)
    ensures Shl(v, 8) == 256 * v
  {
    assert Shl(v, 4) == 2 * Shl(v, 3) == 4 * Shl(v, 2) == 8 * Shl(v, 1);
    assert Shl(v, 8) == 2 * Shl(v, 7) == 4 * Shl(v, 6) == 8 * Shl(v, 5);
  }

  /** The mask (1 << k) - 1. */
  lemma {:induction false} AndMask(v: nat, k: nat)
    ensures And(v, Shl(1, k) - 1) == Low(v, k)
    decreases k
  {
    if k > 0 {
      AndMask(v / 2, k - 1);
      assert (Shl(1, k) - 1) / 2 == Shl(1, k - 1) - 1;
    }
    if v == 0 { LowId(0, k); }
  }

  lemma {:induction false} ShlRange(v: nat, m: nat, k: nat)
    requires v < Pow2(m)
    ensures Shl(v, k) < Pow2(m + k)
    decreases k
  {
    if k > 0 { ShlRange(v, m, k - 1); }
  }

  lemma {:induction false} ShrRange(v: nat, m: nat, k: nat)
    requires v < Pow2(m + k)
    ensures Shr(v, k) < Pow2(m)
    decreases k
  {
    if k > 0 { ShrRange(v / 2, m, k - 1); }
  }

  // ---------------------------------------------------------------- bit sequences

  lemma {:induction false} FromToBits(v: nat, w: nat)
    ensures FromBits(ToBits(v, w)) == Low(v, w)
    decreases w
  {
    if w > 0 { FromToBits(v / 2, w - 1); }
  }

  lemma {:induction false} ToFromBits(s: seq<bool>)
    ensures ToBits(FromBits(s), |s|) == s
  {
    if s != [] {
      ToFromBits(s[1..]);
      assert FromBits(s) / 2 == FromBits(s[1..]);
      assert s == [s[0]] + s[1..];
    }
  }

  /** Splitting the low k bits off a value. */
  lemma {:induction false} ToBitsSplit(v: nat, k: nat, m: nat)
    ensures ToBits(v, k + m) == ToBits(v, k) + ToBits(Shr(v, k), m)
    decreases k
  {
    if k > 0 {
      ToBitsSplit(v / 2, k - 1, m);
      assert k - 1 + m == k + m - 1;
    }
  }

  lemma {:induction false} ToBitsLow(v: nat, k: nat, m: nat)
    ensures ToBits(Low(v, k), k + m) == ToBits(v, k) + seq(m, _ => false)
    decreases k, m
  {
    if k > 0 {
      ToBitsLow(v / 2, k - 1, m);
      assert Low(v, k) / 2 == Low(v / 2, k - 1);
    } else if m > 0 {
      ToBitsLow(v, 0, m - 1);
      assert ToBits(0, m) == [false] + ToBits(0, m - 1);
    }
  }

  lemma ToBitsShl(a: nat, b: nat, k: nat, m: nat)
    requires a < Pow2(k)
    ensures ToBits(a + Shl(b, k), k + m) == ToBits(a, k) + ToBits(b, m)
  {
    ShlSplit(a, b, k);
    ToBitsSplit(a + Shl(b, k), k, m);
    ToBitsLow(a + Shl(b, k), k, 0);
    assert ToBits(a, k) == ToBits(a + Shl(b, k), k) + [];
  }

  lemma {:induction false} ToBitsAt(v: nat, w: nat, i: nat)
    requires i < w
    ensures ToBits(v, w)[i] == Bit(v, i)
    decreases i
  {
    if i > 0 { ToBitsAt(v / 2, w - 1, i - 1); }
  }

  lemma {:induction false} FromBitsAppend(s: seq<bool>, t: seq<bool>)
    ensures FromBits(s + t) == FromBits(s) + Shl(FromBits(t), |s|)
  {
    if s == [] {
      assert s + t == t;
    } else {
      FromBitsAppend(s[1..], t);
      assert (s + t)[1..] == s[1..] + t;
    }
  }

  // ---------------------------------------------------------------- bitwise operators, bit by bit

  lemma {:induction false} AndBit(a: nat, b: nat, i: nat)
    ensures Bit(And(a, b), i) == (Bit(a, i) && Bit(b, i))
    decreases i
  {
    if i > 0 { AndBit(a / 2, b / 2, i - 1); }
    if a == 0 || b == 0 { ZeroBit(i); }
  }

  lemma {:induction false} ZeroBit(i: nat)
    ensures !Bit(0, i)
  {
    if i > 0 { ZeroBit(i - 1); }
  }

  lemma {:induction false} OrBit(a: nat, b: nat, i: nat)
    ensures Bit(Or(a, b), i) == (Bit(a, i) || Bit(b, i))
    decreases i
  {
    if a == 0 || b == 0 {
      ZeroBit(i);
    } else {
      OrStep(a, b);
      if i > 0 { OrBit(a / 2, b / 2, i - 1); }
    }
  }

  lemma OrStep(a: nat, b: nat)
    requires a > 0 && b > 0
    ensures Or(a, b) / 2 == Or(a / 2, b / 2) && ((Or(a, b) % 2 == 1) == (a % 2 == 1 || b % 2 == 1))
  {
    HalfOfSum(a % 2 == 1 || b % 2 == 1, Or(a / 2, b / 2));
  }

  lemma HalfOfSum(b: bool, v: nat)
    ensures (B2N(b) + 2 * v) / 2 == v && ((B2N(b) + 2 * v) % 2 == 1) == b
  {
  }

  lemma {:induction false} XorBit(a: nat, b: nat, i: nat)
    ensures Bit(Xor(a, b), i) == (Bit(a, i) != Bit(b, i))
    decreases i
  {
    if i > 0 { XorBit(a / 2, b / 2, i - 1); }
    if a == 0 || b == 0 { ZeroBit(i); }
  }

  lemma {:induction false} NotBit(a: nat, w: nat, i: nat)
    requires a < Pow2(w) && i < w
    ensures Bit(Not(a, w), i) == !Bit(a, i)
    decreases i
  {
    if i > 0 {
      NotBit(a / 2, w - 1, i - 1);
      assert Not(a, w) / 2 == Not(a / 2, w - 1);
    }
  }

  /** v & (1 << k). */
  lemma {:induction false} AndPower(v: nat, k: nat)
    ensures And(v, Shl(1, k)) == if Bit(v, k) then Shl(1, k) else 0
    decreases k
  {
    if k > 0 { AndPower(v / 2, k - 1); }
    if v == 0 { ZeroBit(k); }
    if k == 0 { assert v > 0 ==> And(v, 1) == B2N(v % 2 == 1) + 2 * And(v / 2, 0); }
  }

  lemma ShlPositive(k: nat)
    ensures Shl(1, k) > 0
  {
  }

  lemma XorFirst(a: nat, b: nat)
    ensures Xor(a, b) / 2 == Xor(a / 2, b / 2) && (Xor(a, b) % 2 == 1) == ((a % 2 == 1) != (b % 2 == 1))
  {
    assert Xor(0, b / 2) == b / 2 && Xor(a / 2, 0) == a / 2;
  }

  lemma {:induction false} XorRange(a: nat, b: nat, w: nat)
    requires a < Pow2(w) && b < Pow2(w)
    ensures Xor(a, b) < Pow2(w)
    decreases w
  {
    if w > 0 {
      XorRange(a / 2, b / 2, w - 1);
      XorFirst(a, b);
    }
  }

  lemma {:induction false} ShlBit(v: nat, k: nat, i: nat)
    ensures Bit(Shl(v, k), i) == (i >= k && Bit(v, i - k))
    decreases k
  {
    if k > 0 && i > 0 {
      ShlBit(v, k - 1, i - 1);
      assert Shl(v, k) / 2 == Shl(v, k - 1);
    }
  }

  lemma {:induction false} ShrBit(v: nat, k: nat, i: nat)
    ensures Bit(Shr(v, k), i) == Bit(v, i + k)
    decreases k
  {
    if k > 0 { ShrBit(v / 2, k - 1, i); }
  }

  lemma {:induction false} LowBit(v: nat, k: nat, i: nat)
    ensures Bit(Low(v, k), i) == (i < k && Bit(v, i))
    decreases k
  {
    if k == 0 { ZeroBit(i); }
    if k > 0 && i > 0 { LowBit(v / 2, k - 1, i - 1); }
  }

  lemma {:induction false} OnesBit(w: nat, i: nat)
    ensures Bit(Pow2(w) - 1, i) == (i < w)
    decreases w
  {
    if w == 0 { ZeroBit(i); }
    if w > 0 && i > 0 {
      OnesBit(w - 1, i - 1);
      assert (Pow2(w) - 1) / 2 == Pow2(w - 1) - 1;
    }
  }

  lemma {:induction false} BitBeyond(v: nat, w: nat, i: nat)
    requires v < Pow2(w) && i >= w
    ensures !Bit(v, i)
    decreases w
  {
    if w == 0 { ZeroBit(i); } else { BitBeyond(v / 2, w - 1, i - 1); }
  }

  lemma {:induction false} OrRange(a: nat, b: nat, w: nat)
    requires a < Pow2(w) && b < Pow2(w)
    ensures Or(a, b) < Pow2(w)
    decreases w
  {
    if w > 0 && a > 0 && b > 0 { OrRange(a / 2, b / 2, w - 1); }
  }
}
