/**
 The typed read operations of src/stream/StreamReaderBase.cpp, each a loop or sequence of Pop and PopBits.
 */
module StreamReaderBase {
  import opened UInt
  import opened StreamSpec
  import opened MemStreamReaders

  /** The value of the bytes in stream order. */
  function IntValue(d: seq<byte>, e: Endian): nat { LeValue(Ordered(d, e)) }

  /** The integers in a run of k-byte integers. */
  function IntValues(d: seq<byte>, k: nat, n: nat, e: Endian): (r: seq<nat>)
    requires |d| == n * k
    ensures |r| == n
    decreases n
  {
    if n == 0 then [] else
      assert n * k == k + (n - 1) * k;
      [IntValue(d[..k], e)] + IntValues(d[k..], k, n - 1, e)
  }

  lemma {:induction false} LeValueAppend(a: seq<byte>, c: byte)
    ensures LeValue(a + [c]) == LeValue(a) + Shl(c, 8 * |a|)
    ensures LeValue(a) < Pow2(8 * |a|)
  {
    hide Shl, Pow2;
    NoShl(c);
    if a == [] {
      assert a + [c] == [c];
    } else {
      LeValueAppend(a[1..], c);
      assert (a + [c])[1..] == a[1..] + [c];
      ShlAdd(c, 8 * (|a| - 1), 8);
      Shl8(Shl(c, 8 * (|a| - 1)));
      Pow2Byte(8 * |a| - 8);
    }
  }

  lemma NoShl(c: nat)
    ensures Shl(c, 8 * 0) == c && Pow2(8 * 0) == 1
  {
  }

  /** An integer written in either byte order is read back. */
  lemma IntRoundTrip(v: nat, k: nat, e: Endian)
    requires v < Pow2(8 * k)
    ensures IntValue(Ordered(LeBytes(v, k), e), e) == v
  {
    hide LeBytes, Pow2, LeValue;
    LeRoundTrip(v, k);
    ReverseTwice(LeBytes(v, k));
  }

  /** The n bytes in front of the position. */
  function PassedBytes(r: Reader, n: nat): seq<byte>
  {
    if r.Reading? && 8 * n <= r.pos <= |r.bits| then BitsBytes(r.bits[r.pos - 8 * n..r.pos]) else []
  }

  lemma PassedFetched(r: Reader, n: nat)
    requires n > 0
    ensures var f := FetchBytes(r, n); f.st == Ok ==> PassedBytes(f.rd, n) == BitsBytes(f.val)
  {
    hide BitsBytes, AlignUp, Pad;
  }

  /** What the bytes of an integer mean. */
  lemma IntDigits(d: seq<byte>, e: Endian)
    ensures IntValue(d, e) < Pow2(8 * |d|) && Digits(d, IntValue(d, e), |d|, e)
  {
    hide LeBytes, LeValue, Pow2, Digits;
    LeValueRange(Ordered(d, e));
    OrderedDigits(IntValue(d, e), |d|, e);
    ReverseTwice(d);
  }

  lemma {:induction false} IntValuesAt(d: seq<byte>, k: nat, n: nat, e: Endian, m: nat)
    requires |d| == n * k && m < n
    ensures m * k + k <= |d| && IntValues(d, k, n, e)[m] == IntValue(d[m * k..m * k + k], e)
    decreases n
  {
    hide IntValue;
    Places(m, n, k);
    if m > 0 {
      IntValuesAt(d[k..], k, n - 1, e, m - 1);
      ShiftedPlace(d, k, (m - 1) * k, k);
    }
  }

  lemma Places(m: nat, n: nat, k: nat)
    requires m < n
    ensures m * k == (if m > 0 then k + (m - 1) * k else 0) && n * k == k + (n - 1) * k
    ensures m * k + k <= n * k
  {
    MulMono(m + 1, n, k);
  }

  lemma ShiftedPlace(d: seq<byte>, k: nat, p: nat, w: nat)
    requires k <= |d|
    ensures k + p + w <= |d| ==> d[k..][p..p + w] == d[k + p..k + p + w]
  {
  }

  lemma IntValuesDigits(d: seq<byte>, k: nat, n: nat, e: Endian)
    requires |d| == n * k
    ensures AllDigits(d, IntValues(d, k, n, e), k, e)
    ensures forall m :: 0 <= m < n ==> IntValues(d, k, n, e)[m] < Pow2(8 * k)
  {
    hide IntValue, IntValues, Digits, Pow2;
    forall m | 0 <= m < n
      ensures m * k + k <= n * k && Digits(d[m * k..m * k + k], IntValues(d, k, n, e)[m], k, e)
      ensures IntValues(d, k, n, e)[m] < Pow2(8 * k)
    {
      IntValuesAt(d, k, n, e, m);
      IntDigits(d[m * k..m * k + k], e);
    }
  }

  /** Read_uint8 / 16 / 32 / 64: k = 1, 2, 4, 8 pops, each or-ed in at its place. */
  method ReadUint(r: MemStreamReader, k: nat) returns (st: Status, v: nat)
    requires r.Valid()
    modifies r
    ensures r.Valid()
    ensures var f := FetchBytes(old(r.Abs()), k);
            r.Abs() == f.rd && st == f.st && (st == Ok ==> v == IntValue(BitsBytes(f.val), r.endian))
    ensures k > 0 && st == Ok ==> v < Pow2(8 * k) && Digits(PassedBytes(r.Abs(), k), v, k, r.endian)
  {
    hide MemStreamReader.Valid, MemStreamReader.Abs;
    hide ToBits, FromBits, BytesBits, BitsBytes, Pow2, Or, Shl, LeValue, Digits, PassedBytes;
    ghost var r0, d := r.Abs(), [];
    v := 0;
    st := Ok;
    NoValue();
    for i := 0 to k
      invariant r.Valid() && st == Ok && |d| == i
      invariant FetchBytes(r0, i) == Fetched(r.Abs(), Ok, BytesBits(d))
      invariant v == if r.endian == Little then LeValue(d) else Shl(LeValue(Reverse(d)), 8 * (k - i))
    {
      FetchBytesTwice(r0, i, 1);
      FetchBytesTwice(r0, i + 1, k - i - 1);
      var c;
      st, c := r.Pop();
      if st != Ok { return; }
      if r.endian == Little {
        OrLow(v, c, d);
        v := Or(v, Shl(c, 8 * i));
      } else {
        OrHigh(v, c, d, k);
        v := Or(v, Shl(c, 8 * (k - 1 - i)));
      }
      BytesBitsAppend(d, [c]);
      BytesBitsOne(c);
      d := d + [c];
    }
    BytesRoundTrip(d);
    ShlNone(LeValue(Reverse(d)));
    IntDigits(d, r.endian);
    if k > 0 { PassedFetched(r0, k); }
  }

  lemma ShlNone(v: nat)
    ensures Shl(v, 8 * 0) == v
  {
  }

  lemma NoValue()
    ensures LeValue([]) == 0 && BytesBits([]) == [] && forall k: nat :: Shl(0, k) == 0
  {
    forall k: nat ensures Shl(0, k) == 0 { ShiftMeaning(0, k); }
  }

  lemma OrLow(v: nat, c: byte, d: seq<byte>)
    requires v == LeValue(d)
    ensures Or(v, Shl(c, 8 * |d|)) == LeValue(d + [c])
  {
    hide Shl, Or, Pow2, LeValue;
    LeValueAppend(d, c);
    OrDisjoint(v, c, 8 * |d|);
  }

  lemma OrHigh(v: nat, c: byte, d: seq<byte>, k: nat)
    requires |d| < k && v == Shl(LeValue(Reverse(d)), 8 * (k - |d|))
    ensures Or(v, Shl(c, 8 * (k - 1 - |d|))) == Shl(LeValue(Reverse(d + [c])), 8 * (k - |d| - 1))
  {
    hide Shl, Or, Pow2;
    var m := 8 * (k - 1 - |d|);
    var x := LeValue(Reverse(d));
    OrCommutes(v, Shl(c, m));
    assert Pow2(8) == 256 by { Pow2Byte(0); assert Pow2(0) == 1 by { NoShl(0); } }
    ShlRange(c, 8, m);
    OrDisjoint(Shl(c, m), x, m + 8);
    ShlAdd(x, 8, m);
    Shl8(x);
    ShlPlus(c, 256 * x, m);
    ReverseAppend(d, [c]);
    assert Reverse([c]) == [c];
    assert Reverse(d + [c]) == [c] + Reverse(d);
    assert ([c] + Reverse(d))[1..] == Reverse(d);
  }

  /** The array forms Read_uint16 / 32 / 64(pDest, n). */
  method ReadUints(r: MemStreamReader, k: nat, n: nat) returns (st: Status, vs: seq<nat>)
    requires r.Valid()
    modifies r
    ensures r.Valid()
    ensures var f := FetchBytes(old(r.Abs()), n * k);
            r.Abs() == f.rd && st == f.st && (st == Ok ==> |f.val| == 8 * (n * k) && vs == IntValues(BitsBytes(f.val), k, n, r.endian))
    ensures n * k > 0 && st == Ok ==>
              (forall m :: 0 <= m < n ==> vs[m] < Pow2(8 * k)) && AllDigits(PassedBytes(r.Abs(), n * k), vs, k, r.endian)
  {
    hide ToBits, FromBits, BytesBits, BitsBytes, IntValue, IntValues, FetchBytes, SoFar, Digits, AllDigits, PassedBytes, Pow2;
    hide MemStreamReader.Valid, MemStreamReader.Abs;
    ghost var r0, d, total := r.Abs(), [], n * k;
    vs := [];
    st := Ok;
    NoBytesFetched(r0);
    SoFarNone(k, r.endian);
    for i := 0 to n
      invariant r.Valid() && st == Ok && SoFar(d, vs, k, i, r.endian)
      invariant FetchBytes(r0, |d|) == Fetched(r.Abs(), Ok, BytesBits(d))
    {
      SoFarFits(d, vs, k, i, n, r.endian);
      FetchStep(r0, |d|, k, total);
      ghost var f := FetchBytes(r.Abs(), k);
      var v;
      st, v := ReadUint(r, k);
      if st != Ok { return; }
      ghost var e := Chunk(f.val, k);
      BytesBitsAppend(d, e);
      SoFarMore(d, e, vs, k, i, r.endian);
      d := d + e;
      vs := vs + [v];
    }
    BytesRoundTrip(d);
    SoFarAll(d, vs, k, n, r.endian);
    IntValuesDigits(d, k, n, r.endian);
    if n * k > 0 { PassedFetched(r0, n * k); }
  }

  /** The first i integers, vs, have been read from the bytes d. */
  ghost predicate SoFar(d: seq<byte>, vs: seq<nat>, k: nat, i: nat, e: Endian)
  {
    |d| == i * k && vs == IntValues(d, k, i, e)
  }

  lemma SoFarNone(k: nat, e: Endian)
    ensures SoFar([], [], k, 0, e)
  {
  }

  lemma SoFarFits(d: seq<byte>, vs: seq<nat>, k: nat, i: nat, n: nat, e: Endian)
    requires i < n && SoFar(d, vs, k, i, e)
    ensures |d| + k <= n * k
  {
    hide IntValues;
    MulMono(i + 1, n, k);
  }

  lemma {:induction false} MulMono(i: nat, n: nat, k: nat)
    requires i <= n
    ensures i * k <= n * k
    decreases n
  {
    if i < n { MulMono(i, n - 1, k); }
  }

  lemma SoFarMore(d: seq<byte>, c: seq<byte>, vs: seq<nat>, k: nat, i: nat, e: Endian)
    requires SoFar(d, vs, k, i, e) && |c| == k
    ensures SoFar(d + c, vs + [IntValue(c, e)], k, i + 1, e)
  {
    hide IntValues, IntValue;
    IntValuesAppend(d, c, k, i, e);
  }

  lemma SoFarAll(d: seq<byte>, vs: seq<nat>, k: nat, n: nat, e: Endian)
    requires SoFar(d, vs, k, n, e)
    ensures |d| == n * k && vs == IntValues(d, k, n, e)
  {
  }

  /** Reading k more of `total` bytes after m of them. */
  lemma FetchStep(r0: Reader, m: nat, k: nat, total: nat)
    requires m + k <= total && FetchBytes(r0, m).st == Ok
    ensures var f, g := FetchBytes(r0, m), FetchBytes(r0, m + k);
            var h := FetchBytes(f.rd, k);
            g == Then(f, h) && (h.st != Ok ==> FetchBytes(r0, total).rd == h.rd && FetchBytes(r0, total).st == h.st)
  {
    hide FetchBytes;
    FetchBytesTwice(r0, m, k);
    FetchBytesTwice(r0, m + k, total - m - k);
  }

  ghost function Chunk(s: seq<bool>, k: nat): (e: seq<byte>)
    requires |s| == 8 * k
    ensures |e| == k && BytesBits(e) == s && e == BitsBytes(s)
  {
    hide BytesBits, BitsBytes;
    BitsRoundTrip(s);
    BitsBytes(s)
  }

  lemma {:induction false} IntValuesAppend(d: seq<byte>, e: seq<byte>, k: nat, i: nat, en: Endian)
    requires |d| == i * k && |e| == k
    ensures |d + e| == (i + 1) * k && IntValues(d + e, k, i + 1, en) == IntValues(d, k, i, en) + [IntValue(e, en)]
    decreases i
  {
    hide IntValue;
    if i == 0 {
      assert d + e == e && e[..k] == e && e[k..] == [];
      assert IntValues([], k, 0, en) == [];
    } else {
      assert i * k == k + (i - 1) * k;
      assert (d + e)[..k] == d[..k] && (d + e)[k..] == d[k..] + e;
      IntValuesAppend(d[k..], e, k, i - 1, en);
    }
  }

  /** Read_bool(pDest, n). */
  method ReadBools(r: MemStreamReader, n: nat) returns (st: Status, vs: seq<bool>)
    requires r.Valid()
    modifies r
    ensures r.Valid()
    ensures var f := FetchRun(old(r.Abs()), n);
            r.Abs() == f.rd && st == f.st && (st == Ok ==> vs == f.val)
  {
    hide MemStreamReader.Valid, MemStreamReader.Abs;
    hide ToBits, BytesBits, FetchRun;
    ghost var r0 := r.Abs();
    vs := [];
    st := Ok;
    NoBitsFetched(r0);
    for i := 0 to n
      invariant r.Valid() && st == Ok && |vs| == i && FetchRun(r0, i) == Fetched(r.Abs(), Ok, vs)
    {
      FetchRunTwice(r0, i, 1);
      FetchRunTwice(r0, i + 1, n - i - 1);
      ghost var f := FetchRun(r.Abs(), 1);
      var v;
      st, v := r.PopBits(1);
      if st != Ok { return; }
      OneBit(f.val);
      vs := vs + [v != 0];
    }
  }

  lemma NoBitsFetched(r: Reader)
    ensures FetchRun(r, 0) == Fetched(r, Ok, [])
  {
  }

  lemma OneBit(s: seq<bool>)
    requires |s| == 1
    ensures s == [FromBits(s) != 0]
  {
    assert s[1..] == [];
  }

  lemma PackOne(s: seq<bool>)
    requires 1 <= |s| <= 8
    ensures FromBits(s) < 256 && PackBits(s) == [FromBits(s)]
  {
    hide FromBits, Pow2;
    FewBits(s);
  }

  /** Read_bits(pDest, n): n bits packed into bytes. */
  method ReadBitArray(r: MemStreamReader, n: nat) returns (st: Status, d: seq<byte>)
    requires r.Valid()
    modifies r
    ensures r.Valid()
    ensures var f := FetchRun(old(r.Abs()), n);
            r.Abs() == f.rd && st == f.st && (st == Ok ==> d == PackBits(f.val))
  {
    hide ToBits, FromBits, Pow2, BytesBits, FetchRun, PackBits, MemStreamReader.Valid, MemStreamReader.Abs;
    ghost var r0, s := r.Abs(), [];
    var left: nat := n;
    d := [];
    st := Ok;
    NoBitsFetched(r0);
    while left >= 8
      invariant left <= n && |s| == n - left && |s| % 8 == 0
      invariant r.Valid() && st == Ok && d == PackBits(s) && FetchRun(r0, n - left) == Fetched(r.Abs(), Ok, s)
    {
      FetchRunTwice(r0, n - left, 8);
      FetchRunTwice(r0, n - left + 8, left - 8);
      ghost var f := FetchRun(r.Abs(), 8);
      var v;
      st, v := r.PopBits(8);
      if st != Ok { return; }
      PackAppend(s, f.val);
      PackOne(f.val);
      s := s + f.val;
      d := d + [v];
      left := left - 8;
    }
    FetchRunTwice(r0, n - left, left);
    if left != 0 {
      ghost var f := FetchRun(r.Abs(), left);
      var v;
      st, v := r.PopBits(left);
      if st == Ok {
        PackAppend(s, f.val);
        PackOne(f.val);
        d := d + [v];
      }
    }
  }
}
