/**
 MD5 as RFC 1321 describes it: padding and length (sections 3.1 and 3.2), registers (3.3), four rounds over blocks of
 sixteen words (3.4), output (3.5).
 */
module Md5Spec {
  import opened UInt
  import opened StreamSpec
  import opened WordBits

  // ---------------------------------------------------------------- words

  function WXor(a: word, b: word): word
  {
    WordRange();
    XorRange(a, b, W);
    Xor(a, b)
  }

  function Plus(a: word, b: word): word { (a + b) % 0x1_0000_0000 }

  /** X <<< s: the s bits at the top come in at the bottom. */
  function CircularShift(v: word, s: nat): word
    requires s <= W
  {
    WordRange();
    var b := ToBits(v, W);
    FromBits(b[W - s..] + b[..W - s])
  }

  function F(x: word, y: word, z: word): word { WOr(WAnd(x, y), WAnd(WNot(x), z)) }
  function G(x: word, y: word, z: word): word { WOr(WAnd(x, z), WAnd(y, WNot(z))) }
  function H(x: word, y: word, z: word): word { WXor(WXor(x, y), z) }
  function I(x: word, y: word, z: word): word { WXor(y, WOr(x, WNot(z))) }

  /** The table of section 3.4, counted from 0, round by round. */
  const T: seq<word> := [
    0xd76a_a478, 0xe8c7_b756, 0x2420_70db, 0xc1bd_ceee, 0xf57c_0faf, 0x4787_c62a, 0xa830_4613, 0xfd46_9501,
    0x6980_98d8, 0x8b44_f7af, 0xffff_5bb1, 0x895c_d7be, 0x6b90_1122, 0xfd98_7193, 0xa679_438e, 0x49b4_0821
  ] + [
    0xf61e_2562, 0xc040_b340, 0x265e_5a51, 0xe9b6_c7aa, 0xd62f_105d, 0x0244_1453, 0xd8a1_e681, 0xe7d3_fbc8,
    0x21e1_cde6, 0xc337_07d6, 0xf4d5_0d87, 0x455a_14ed, 0xa9e3_e905, 0xfcef_a3f8, 0x676f_02d9, 0x8d2a_4c8a
  ] + [
    0xfffa_3942, 0x8771_f681, 0x6d9d_6122, 0xfde5_380c, 0xa4be_ea44, 0x4bde_cfa9, 0xf6bb_4b60, 0xbebf_bc70,
    0x289b_7ec6, 0xeaa1_27fa, 0xd4ef_3085, 0x0488_1d05, 0xd9d4_d039, 0xe6db_99e5, 0x1fa2_7cf8, 0xc4ac_5665
  ] + [
    0xf429_2244, 0x432a_ff97, 0xab94_23a7, 0xfc93_a039, 0x655b_59c3, 0x8f0c_cc92, 0xffef_f47d, 0x8584_5dd1,
    0x6fa8_7e4f, 0xfe2c_e6e0, 0xa301_4314, 0x4e08_11a1, 0xf753_7e82, 0xbd3a_f235, 0x2ad7_d2bb, 0xeb86_d391
  ]

  // ---------------------------------------------------------------- sections 3.1 and 3.2

  function Zeros8(n: nat): (r: seq<byte>)
    ensures |r| == n && forall i :: 0 <= i < n ==> r[i] == 0
  {
    seq(n, _ => 0)
  }

  /** Number of zero bytes behind the byte 0x80. */
  function ZeroBytes(n: nat): nat { (119 - n % 64) % 64 }

  /** The message, a one bit, the fewest zero bits that make the length 448 modulo 512 bits, and the 64-bit length. */
  function Padded(m: seq<byte>): seq<byte>
  {
    m + [0x80] + Zeros8(ZeroBytes(|m|)) + LeBytes(8 * |m|, 8)
  }

  /** A length of n bytes is congruent to 448, modulo 512 bits. */
  predicate Congruent(n: nat) { 8 * n % 512 == 448 }

  lemma CongruentIs(n: nat)
    ensures Congruent(n) <==> n % 64 == 56
  {
    var q, r := n / 64, n % 64;
    assert 8 * n == 512 * q + 8 * r;
  }

  lemma ZeroBytesOf(q: nat, r: nat)
    requires r < 64
    ensures ZeroBytes(64 * q + r) == if r <= 55 then 55 - r else 119 - r
    ensures (64 * q + r + 1 + ZeroBytes(64 * q + r)) % 64 == 56
  {
    assert (64 * q + r) % 64 == r;
    if r <= 55 {
      assert 64 * q + r + 1 + (55 - r) == 64 * q + 56;
    } else {
      assert 64 * q + r + 1 + (119 - r) == 64 * (q + 1) + 56;
    }
  }

  lemma ZeroBytesIs(n: nat)
    ensures ZeroBytes(n) < 64 && (n + 1 + ZeroBytes(n)) % 64 == 56
    ensures forall k :: n < k < n + 1 + ZeroBytes(n) ==> !Congruent(k)
  {
    hide Congruent;
    var q, r := n / 64, n % 64;
    ZeroBytesOf(q, r);
    assert n == 64 * q + r;
    forall k | n < k < n + 1 + ZeroBytes(n) ensures !Congruent(k) {
      CongruentIs(k);
      assert k == 64 * q + (r + (k - n));
    }
  }

  /** The padding is the shortest one that is at least one bit long and leads to the required length. */
  lemma PaddedSize(m: seq<byte>)
    ensures |Padded(m)| == |m| + 9 + ZeroBytes(|m|) && |Padded(m)| % 64 == 0
    ensures Congruent(|m| + 1 + ZeroBytes(|m|))
    ensures forall k :: |m| < k < |m| + 1 + ZeroBytes(|m|) ==> !Congruent(k)
  {
    hide Congruent, ZeroBytes, Zeros8, LeBytes;
    ZeroBytesIs(|m|);
    CongruentIs(|m| + 1 + ZeroBytes(|m|));
    EightMore(|m| + 1 + ZeroBytes(|m|));
    assert |Padded(m)| == |m| + 1 + ZeroBytes(|m|) + 8;
  }

  lemma EightMore(n: nat)
    requires n % 64 == 56
    ensures (n + 8) % 64 == 0
  {
  }

  // ---------------------------------------------------------------- section 3.4

  /** The word k of a block, low byte first. */
  function X(block: seq<byte>, k: nat): word
    requires |block| == 64 && k < 16
  {
    LeRange(block[4 * k..4 * k + 4]);
    LeValue(block[4 * k..4 * k + 4])
  }

  lemma LeRange(d: seq<byte>)
    requires |d| == 4
    ensures LeValue(d) < 0x1_0000_0000
  {
    assert LeValue(d) == d[0] + 256 * LeValue(d[1..]);
    assert LeValue(d[1..]) == d[1] + 256 * LeValue(d[2..]);
    assert LeValue(d[2..]) == d[2] + 256 * LeValue(d[3..]);
    assert LeValue(d[3..]) == d[3] + 256 * LeValue(d[4..]);
  }

  type Registers = r: seq<word> | |r| == 4 witness [0, 0, 0, 0]

  const Initial: Registers := [0x6745_2301, 0xEFCD_AB89, 0x98BA_DCFE, 0x1032_5476]

  /** Operation n, counted from 0, uses word K(n) and shifts by S(n). */
  function K(n: nat): (k: nat)
    requires n < 64
    ensures k < 16
  {
    if n < 16 then n
    else if n < 32 then (1 + 5 * (n - 16)) % 16
    else if n < 48 then (5 + 3 * (n - 32)) % 16
    else 7 * (n - 48) % 16
  }

  function S(n: nat): (s: nat)
    requires n < 64
    ensures 0 < s < W
  {
    var i := n % 4;
    if n < 16 then (if i == 0 then 7 else if i == 1 then 12 else if i == 2 then 17 else 22)
    else if n < 32 then (if i == 0 then 5 else if i == 1 then 9 else if i == 2 then 14 else 20)
    else if n < 48 then (if i == 0 then 4 else if i == 1 then 11 else if i == 2 then 16 else 23)
    else (if i == 0 then 6 else if i == 1 then 10 else if i == 2 then 15 else 21)
  }

  function Auxiliary(n: nat, x: word, y: word, z: word): word
  {
    if n < 16 then F(x, y, z) else if n < 32 then G(x, y, z) else if n < 48 then H(x, y, z) else I(x, y, z)
  }

  /** The register that plays the part of `a` in operation n: A, D, C, B, A, ... */
  function First(n: nat): (i: nat)
    ensures i < 4
  {
    (4 - n % 4) % 4
  }

  /** Operation n: a = b + ((a + f(b,c,d) + X[k] + T[n]) <<< s). */
  function Operation(n: nat, r: Registers, block: seq<byte>): Registers
    requires n < 64 && |block| == 64
  {
    var i := First(n);
    var a, b, c, d := r[i], r[(i + 1) % 4], r[(i + 2) % 4], r[(i + 3) % 4];
    var v := Plus(Plus(Plus(a, Auxiliary(n, b, c, d)), X(block, K(n))), T[n]);
    r[i := Plus(b, CircularShift(v, S(n)))]
  }

  function Operations(n: nat, r: Registers, block: seq<byte>): Registers
    requires n <= 64 && |block| == 64
  {
    if n == 0 then r else Operation(n - 1, Operations(n - 1, r, block), block)
  }

  function Sums(q: Registers, r: Registers): Registers
  {
    [Plus(q[0], r[0]), Plus(q[1], r[1]), Plus(q[2], r[2]), Plus(q[3], r[3])]
  }

  function Compress(r: Registers, block: seq<byte>): Registers
    requires |block| == 64
  {
    Sums(Operations(64, r, block), r)
  }

  /** All whole blocks of p. */
  function Blocks(p: seq<byte>, n: nat): Registers
    requires 64 * n <= |p|
  {
    if n == 0 then Initial else Compress(Blocks(p, n - 1), p[64 * (n - 1)..64 * n])
  }

  // ---------------------------------------------------------------- section 3.5

  function Output(r: Registers): (d: seq<byte>)
    ensures |d| == 16
  {
    LeBytes(r[0], 4) + LeBytes(r[1], 4) + LeBytes(r[2], 4) + LeBytes(r[3], 4)
  }

  function Digest(m: seq<byte>): (d: seq<byte>)
    ensures |d| == 16
  {
    PaddedSize(m);
    Output(Blocks(Padded(m), |Padded(m)| / 64))
  }
}
