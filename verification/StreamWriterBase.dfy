/**
 The typed write operations of src/stream/StreamWriterBase.cpp, each a loop or sequence of Push and PushBits.
 Native data (as it lies in memory) is little-endian.
 */
module StreamWriterBase {
  import opened UInt
  import opened StreamSpec
  import opened MemStreamWriters

  /** The bytes of k-byte integers in stream order. */
  function IntsBytes(vs: seq<nat>, k: nat, e: Endian): (r: seq<byte>)
    ensures |r| == |vs| * k
  {
    if vs == [] then [] else
      assert |vs[1..]| * k + k == |vs| * k;
      Ordered(LeBytes(vs[0], k), e) + IntsBytes(vs[1..], k, e)
  }

  function ShiftByte(v: nat, i: nat): byte
  {
    assert Pow2(8) == 256;
    Low(Shr(v, 8 * i), 8)
  }

  lemma {:induction false} LeBytesAt(v: nat, k: nat, i: nat)
    requires i < k
    ensures LeBytes(v, k)[i] == ShiftByte(v, i)
    decreases i
  {
    hide Shr, Low;
    ByteOf(v);
    if i > 0 {
      LeBytesAt(v / 256, k - 1, i - 1);
      ShrAdd(v, 8, 8 * (i - 1));
      assert 8 + 8 * (i - 1) == 8 * i;
    } else {
      NoShift(v);
    }
  }

  lemma NoShift(v: nat)
    ensures Shr(v, 8 * 0) == v
  {
  }

  lemma ByteOf(v: nat)
    ensures Low(v, 8) == v % 256 && Shr(v, 8) == v / 256
  {
    hide Shr, Low, Shl;
    ShiftMeaning(v, 8);
    var q, r := Shr(v, 8), Low(v, 8);
    assert Pow2(8) == 256;
    assert v == q * 256 + r;
  }

  lemma {:induction false} ShrAdd(v: nat, a: nat, b: nat)
    ensures Shr(Shr(v, a), b) == Shr(v, a + b)
    decreases a
  {
    if a > 0 { ShrAdd(v / 2, a - 1, b); }
  }

  /** Pushing d one byte at a time: after byte i the writer is where one PushBytes of d[..i + 1] leaves it. */
  lemma PushStep(w: Writer, d: seq<byte>, i: nat)
    requires i < |d| && PushBytes(w, d[..i]).1 == Ok
    ensures PushBytes(w, d[..i + 1]) == PushByte(PushBytes(w, d[..i]).0, d[i])
    ensures PushBytes(w, d[..i + 1]).1 != Ok ==> PushBytes(w, d) == PushBytes(w, d[..i + 1])
  {
    hide ToBits;
    assert d[..i + 1] == d[..i] + [d[i]];
    PushBytesTwice(w, d[..i], [d[i]]);
    BytesBitsOne(d[i]);
    assert d == d[..i + 1] + d[i + 1..];
    PushBytesTwice(w, d[..i + 1], d[i + 1..]);
  }

  /** The last n bytes in the stream. */
  function LastBytes(w: Writer, n: nat): seq<byte>
  {
    if w.Writing? && 8 * n <= |w.out| then BitsBytes(w.out[|w.out| - 8 * n..]) else []
  }

  lemma LastPushed(w: Writer, d: seq<byte>)
    requires d != [] && PushBytes(w, d).1 == Ok
    ensures LastBytes(PushBytes(w, d).0, |d|) == d
  {
    hide BytesBits, BitsBytes, Aligned;
    BytesRoundTrip(d);
    var t := Target(w.out, true, BytesBits(d));
    assert t[|t| - 8 * |d|..] == BytesBits(d);
  }

  /** Write_uint8 / 16 / 32 / 64: the pushes for k = 1, 2, 4, 8, least or most significant byte first. */
  method WriteUint(w: MemStreamWriter, data: nat, k: nat) returns (st: Status)
    requires w.Valid()
    modifies w, w.buffer
    ensures w.Valid() && (w.Abs(), st) == PushBytes(old(w.Abs()), Ordered(LeBytes(data, k), w.endian))
    ensures k > 0 && st == Ok ==> Digits(LastBytes(w.Abs(), k), data, k, w.endian)
    ensures w.TailIntact(old(w.buffer[..]), old(w.pMem))
  {
    hide MemStreamWriter.Valid, MemStreamWriter.Abs;
    hide ToBits, FromBits, Pow2, BytesBits, Low, Shr, LeBytes, Digits, LastBytes;
    ghost var d, w0 := Ordered(LeBytes(data, k), w.endian), w.Abs();
    ghost var mem, p := w.buffer[..], w.pMem;
    assert d[..0] == [];
    st := Ok;
    for i := 0 to k
      invariant w.Valid() && st == Ok && (w.Abs(), Ok) == PushBytes(w0, d[..i])
      invariant w.TailIntact(mem, p)
    {
      var j := if w.endian == Little then i else k - 1 - i;
      LeBytesAt(data, k, j);
      if w.endian == Big { ReverseAt(LeBytes(data, k), i); }
      PushStep(w0, d, i);
      ghost var mem1, p1 := w.buffer[..], w.pMem;
      st := w.Push(ShiftByte(data, j));
      TailTrans(mem, mem1, w.buffer[..], p1, w.pMem);
      if st != Ok { return; }
    }
    assert d[..k] == d;
    if k > 0 { LastPushed(w0, d); }
    OrderedDigits(data, k, w.endian);
  }

  /** The array forms Write_uint16 / 32 / 64(pData, n). */
  method WriteUints(w: MemStreamWriter, data: seq<nat>, k: nat) returns (st: Status)
    requires w.Valid()
    modifies w, w.buffer
    ensures w.Valid() && (w.Abs(), st) == PushBytes(old(w.Abs()), IntsBytes(data, k, w.endian))
    ensures k > 0 && data != [] && st == Ok ==> AllDigits(LastBytes(w.Abs(), |data| * k), data, k, w.endian)
    ensures w.TailIntact(old(w.buffer[..]), old(w.pMem))
  {
    hide MemStreamWriter.Valid, MemStreamWriter.Abs;
    hide BytesBits, LeBytes, Ordered, AllDigits, Digits, LastBytes;
    ghost var w0 := w.Abs();
    ghost var mem, p := w.buffer[..], w.pMem;
    assert data[..0] == [];
    st := Ok;
    for i := 0 to |data|
      invariant w.Valid() && st == Ok && (w.Abs(), Ok) == PushBytes(w0, IntsBytes(data[..i], k, w.endian))
      invariant w.TailIntact(mem, p)
    {
      IntsBytesStep(data, k, w.endian, i);
      var a, b, c := IntsBytes(data[..i], k, w.endian), Ordered(LeBytes(data[i], k), w.endian), IntsBytes(data[i + 1..], k, w.endian);
      PushBytesTwice(w0, a, b);
      PushBytesTwice(w0, a + b, c);
      ghost var mem1, p1 := w.buffer[..], w.pMem;
      st := WriteUint(w, data[i], k);
      TailTrans(mem, mem1, w.buffer[..], p1, w.pMem);
      if st != Ok { return; }
    }
    assert data[..|data|] == data;
    IntsDigits(data, k, w.endian);
    if k > 0 && data != [] {
      SomeBytes(|data|, k);
      LastPushed(w0, IntsBytes(data, k, w.endian));
    }
  }

  lemma SomeBytes(n: nat, k: nat)
    requires n > 0 && k > 0
    ensures n * k > 0
  {
  }

  lemma Middle(a: seq<byte>, b: seq<byte>, c: seq<byte>)
    ensures (a + b + c)[|a|..|a| + |b|] == b
  {
  }

  /** What a run of integers in the stream means. */
  lemma IntsDigits(vs: seq<nat>, k: nat, e: Endian)
    ensures AllDigits(IntsBytes(vs, k, e), vs, k, e)
  {
    hide LeBytes, Ordered, Digits, IntsBytes;
    forall m | 0 <= m < |vs| ensures m * k + k <= |vs| * k && Digits(IntsBytes(vs, k, e)[m * k..m * k + k], vs[m], k, e) {
      IntsBytesStep(vs, k, e, m);
      Middle(IntsBytes(vs[..m], k, e), Ordered(LeBytes(vs[m], k), e), IntsBytes(vs[m + 1..], k, e));
      OrderedDigits(vs[m], k, e);
    }
  }

  lemma IntsBytesStep(vs: seq<nat>, k: nat, e: Endian, i: nat)
    requires i < |vs|
    ensures IntsBytes(vs[..i + 1], k, e) == IntsBytes(vs[..i], k, e) + Ordered(LeBytes(vs[i], k), e)
    ensures IntsBytes(vs, k, e) == IntsBytes(vs[..i], k, e) + Ordered(LeBytes(vs[i], k), e) + IntsBytes(vs[i + 1..], k, e)
  {
    hide LeBytes, Ordered;
    IntsBytesAppend(vs[..i], [vs[i]], k, e);
    assert vs[..i + 1] == vs[..i] + [vs[i]];
    assert [vs[i]][1..] == [];
    IntsBytesAppend(vs[..i + 1], vs[i + 1..], k, e);
    assert vs == vs[..i + 1] + vs[i + 1..];
  }

  lemma {:induction false} IntsBytesAppend(a: seq<nat>, b: seq<nat>, k: nat, e: Endian)
    ensures IntsBytes(a + b, k, e) == IntsBytes(a, k, e) + IntsBytes(b, k, e)
  {
    hide LeBytes, Ordered;
    if a == [] {
      assert a + b == b;
    } else {
      assert (a + b)[1..] == a[1..] + b;
      IntsBytesAppend(a[1..], b, k, e);
    }
  }

  lemma {:induction false} Ones(n: nat, m: nat)
    requires m <= n
    ensures ToBits(Pow2(n) - 1, m) == Const(m, true)
    ensures ToBits(0, m) == Const(m, false)
    decreases m
  {
    if m > 0 {
      Ones(n - 1, m - 1);
      assert (Pow2(n) - 1) / 2 == Pow2(n - 1) - 1;
    }
  }

  lemma AllOnes(m: nat)
    requires m <= 8
    ensures ToBits(0xFF, m) == Const(m, true) && ToBits(0, m) == Const(m, false)
  {
    assert Pow2(8) == 256;
    Ones(8, m);
  }

  lemma RunStep(w: Writer, done: nat, chunk: nat, rest: nat, b: bool)
    ensures var (w1, s1) := PushRun(w, Const(done, b));
            PushRun(w, Const(done + chunk, b)) == if s1 == Ok then PushRun(w1, Const(chunk, b)) else (w1, s1)
    ensures var (w1, s1) := PushRun(w, Const(done + chunk, b));
            s1 != Ok ==> PushRun(w, Const(done + chunk + rest, b)) == (w1, s1)
  {
    assert Const(done + chunk, b) == Const(done, b) + Const(chunk, b);
    PushRunTwice(w, Const(done, b), Const(chunk, b));
    assert Const(done + chunk + rest, b) == Const(done + chunk, b) + Const(rest, b);
    PushRunTwice(w, Const(done + chunk, b), Const(rest, b));
  }

  /** FillBits: n equal bits, eight at a time. */
  method FillBits(w: MemStreamWriter, n: nat, oneNotZero: bool) returns (st: Status)
    requires w.Valid()
    modifies w, w.buffer
    ensures w.Valid() && (w.Abs(), st) == PushRun(old(w.Abs()), Const(n, oneNotZero))
  {
    hide MemStreamWriter.Valid, MemStreamWriter.Abs;
    hide ToBits, BytesBits, Const;
    var val: byte := if oneNotZero then 0xFF else 0;
    ghost var w0 := w.Abs();
    var left: nat := n;
    st := Ok;
    while left != 0
      invariant left <= n && w.Valid() && st == Ok && (w.Abs(), Ok) == PushRun(w0, Const(n - left, oneNotZero))
    {
      var chunk: nat := if left >= 8 then 8 else left;
      AllOnes(chunk);
      RunStep(w0, n - left, chunk, left - chunk, oneNotZero);
      st := w.PushBits(val, chunk);
      if st != Ok { return; }
      left := left - chunk;
    }
  }

  function Repeat(c: byte, n: nat): (r: seq<byte>)
    ensures |r| == n && forall i :: 0 <= i < n ==> r[i] == c
  {
    if n == 0 then [] else [c] + Repeat(c, n - 1)
  }

  /** FillBytes: n equal bytes. */
  method FillBytes(w: MemStreamWriter, n: nat, value: byte) returns (st: Status)
    requires w.Valid()
    modifies w, w.buffer
    ensures w.Valid() && (w.Abs(), st) == PushBytes(old(w.Abs()), Repeat(value, n))
  {
    hide MemStreamWriter.Valid, MemStreamWriter.Abs;
    hide ToBits, BytesBits;
    ghost var w0, d := w.Abs(), Repeat(value, n);
    assert d[..0] == [];
    st := Ok;
    for i := 0 to n
      invariant w.Valid() && st == Ok && (w.Abs(), Ok) == PushBytes(w0, d[..i])
    {
      PushStep(w0, d, i);
      st := w.Push(value);
      if st != Ok { return; }
    }
    assert d[..n] == d;
  }

  /** AlignToByteBoundary: fills up the current byte and reports how many bits that took. */
  method AlignToByteBoundary(w: MemStreamWriter, fillWithOnesNotZeros: bool) returns (st: Status, nbOfBits: nat)
    requires w.Valid()
    modifies w, w.buffer
    ensures w.Valid()
    ensures match old(w.Abs())
            case Writing(out, cap) =>
              && nbOfBits == Pad(|out|) && st == Ok && w.Abs() == Writing(out + Const(Pad(|out|), fillWithOnesNotZeros), cap)
            case WriteFailed => st == ErrorStateError && w.Abs() == WriteFailed
            case WriteClosed => st == ClosedError && w.Abs() == WriteClosed
  {
    hide ToBits, BytesBits;
    nbOfBits := 0;
    // GetNbOfCachedBits
    if w.state == Closed { return ClosedError, 0; }
    if w.state == MemStreamWriters.Error { return ErrorStateError, 0; }
    nbOfBits := (8 - w.nbOfBitsWritten) % 8;
    ghost var out := w.Abs().out;
    assert |out| % 8 == w.nbOfBitsWritten;
    assert out + [] == out && Const(0, fillWithOnesNotZeros) == [];
    st := FillBits(w, nbOfBits, fillWithOnesNotZeros);
  }

  /** Write_bool(pData, n): one bit per element. */
  method WriteBools(w: MemStreamWriter, data: seq<bool>) returns (st: Status)
    requires w.Valid()
    modifies w, w.buffer
    ensures w.Valid() && (w.Abs(), st) == PushRun(old(w.Abs()), data)
  {
    hide MemStreamWriter.Valid, MemStreamWriter.Abs;
    hide BytesBits;
    ghost var w0 := w.Abs();
    assert data[..0] == [];
    st := Ok;
    for i := 0 to |data|
      invariant w.Valid() && st == Ok && (w.Abs(), Ok) == PushRun(w0, data[..i])
    {
      assert data[..i + 1] == data[..i] + [data[i]];
      assert data == data[..i + 1] + data[i + 1..];
      PushRunTwice(w0, data[..i], [data[i]]);
      PushRunTwice(w0, data[..i + 1], data[i + 1..]);
      var bit: byte := if data[i] then 1 else 0;
      assert ToBits(bit, 1) == [data[i]];
      st := w.PushBits(bit, 1);
      if st != Ok { return; }
    }
    assert data[..|data|] == data;
  }

  /** Write_Bits(pData, n): the first n bits of the bytes in data. */
  method WriteBitArray(w: MemStreamWriter, data: seq<byte>, n: nat) returns (st: Status)
    requires w.Valid() && n <= 8 * |data|
    modifies w, w.buffer
    ensures w.Valid() && (w.Abs(), st) == PushRun(old(w.Abs()), BytesBits(data)[..n])
  {
    hide MemStreamWriter.Valid, MemStreamWriter.Abs;
    hide ToBits, BytesBits;
    ghost var w0, all := w.Abs(), BytesBits(data)[..n];
    assert all[..0] == [];
    var i, left := 0, n;
    st := Ok;
    while left > 7
      invariant left + 8 * i == n && w.Valid() && st == Ok && (w.Abs(), Ok) == PushRun(w0, all[..8 * i])
    {
      ByteAt(data, i);
      assert all[..8 * i + 8] == all[..8 * i] + ToBits(data[i], 8);
      assert all == all[..8 * i + 8] + all[8 * i + 8..];
      PushRunTwice(w0, all[..8 * i], ToBits(data[i], 8));
      PushRunTwice(w0, all[..8 * i + 8], all[8 * i + 8..]);
      st := w.PushBits(data[i], 8);
      if st != Ok { return; }
      i, left := i + 1, left - 8;
    }
    if left != 0 {
      ByteAt(data, i);
      ToBitsPrefix(data[i], 8, left);
      assert all == all[..8 * i] + ToBits(data[i], left);
      PushRunTwice(w0, all[..8 * i], ToBits(data[i], left));
      st := w.PushBits(data[i], left);
    } else {
      assert all[..8 * i] == all;
    }
  }

  lemma {:induction false} ByteAt(d: seq<byte>, i: nat)
    requires i < |d|
    ensures BytesBits(d)[8 * i..8 * i + 8] == ToBits(d[i], 8)
  {
    hide ToBits;
    if i > 0 {
      ByteAt(d[1..], i - 1);
      assert BytesBits(d)[8 * i..8 * i + 8] == BytesBits(d[1..])[8 * (i - 1)..8 * (i - 1) + 8];
    }
  }

  lemma ToBitsPrefix(v: nat, k: nat, n: nat)
    requires n <= k
    ensures ToBits(v, k)[..n] == ToBits(v, n)
  {
    ToBitsSplit(v, n, k - n);
  }

  /** Write_string: the characters and a terminating NUL. */
  method WriteString(w: MemStreamWriter, str: seq<byte>) returns (st: Status)
    requires w.Valid()
    modifies w, w.buffer
    ensures w.Valid() && (w.Abs(), st) == PushBytes(old(w.Abs()), str + [0])
  {
    hide MemStreamWriter.Valid, MemStreamWriter.Abs;
    st := w.PushBlock(str + [0]);
  }

  /** Write_line: the characters and a line feed. */
  method WriteLine(w: MemStreamWriter, str: seq<byte>) returns (st: Status)
    requires w.Valid()
    modifies w, w.buffer
    ensures w.Valid() && (w.Abs(), st) == PushBytes(old(w.Abs()), str + [0x0A])
  {
    hide MemStreamWriter.Valid, MemStreamWriter.Abs;
    hide ToBits, BytesBits;
    PushBytesTwice(w.Abs(), str, [0x0A]);
    BytesBitsOne(0x0A);
    st := w.PushBlock(str);
    if st != Ok { return; }
    st := w.Push(0x0A);
  }
}
