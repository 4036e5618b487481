/**
 Conversion between native data and CANopen-encoded data (src/cood/Object.cpp). Native memory is little-endian, a
 native bool is one byte, real32 and real64 are the bytes of their representation.
 */
module ObjectCodec {
  import opened UInt
  import opened StreamSpec
  import opened MemStreamWriters
  import opened MemStreamReaders
  import opened StreamWriterBase
  import opened StreamReaderBase
  import opened DataTypes

  /** Bytes that n elements of type t take in memory. */
  function NativeSize(t: DataType, n: nat): nat
  {
    if IsNativeDataStuffed(t) then (n * BitLength(t) + 7) / 8
    else if t.Boolean? then n
    else n * Width(t)
  }

  /** Bytes of one element of a byte-based type. */
  function Width(t: DataType): nat { BitLength(t) / 8 }

  /** Number of characters before the first NUL (strnlen). */
  function StrnLen(d: seq<byte>): nat { StringLen(d) }

  /** Everything behind the first NUL is NUL. */
  function ZeroFilled(d: seq<byte>): (r: seq<byte>)
    ensures |r| == |d|
  {
    d[..StrnLen(d)] + Repeat(0, |d| - StrnLen(d))
  }

  function BoolBits(d: seq<byte>): (r: seq<bool>)
    ensures |r| == |d|
  {
    if d == [] then [] else [d[0] != 0] + BoolBits(d[1..])
  }

  function BitsBools(s: seq<bool>): (r: seq<byte>)
    ensures |r| == |s|
  {
    if s == [] then [] else [if s[0] then 1 else 0] + BitsBools(s[1..])
  }

  /** Integers with their bytes in stream order. */
  function Swapped(d: seq<byte>, k: nat, n: nat, e: Endian): (r: seq<byte>)
    requires |d| == n * k
    ensures |r| == n * k
  {
    IntsBytes(IntValues(d, k, n, Little), k, e)
  }

  /** Stream data of n elements in a complete access. */
  function Encoded(t: DataType, n: nat, d: seq<byte>, e: Endian): (r: seq<bool>)
    requires !t.NullType? && !t.Unsupported? && |d| == NativeSize(t, n)
  {
    if t.Boolean? then BoolBits(d)
    else if t.VisibleString? then BytesBits(ZeroFilled(d))
    else if IsNativeDataStuffed(t) then BytesBits(d)[..n * BitLength(t)]
    else BytesBits(Swapped(d, Width(t), n, e))
  }

  /** Native data of n elements whose stream data is s. */
  function Decoded(t: DataType, n: nat, s: seq<bool>, e: Endian): (r: seq<byte>)
    requires !t.NullType? && !t.Unsupported? && |s| == n * BitLength(t)
    ensures |r| == NativeSize(t, n)
  {
    if t.Boolean? then BitsBools(s)
    else if t.VisibleString? then ZeroFilled(BitsBytes(s))
    else if IsNativeDataStuffed(t) then PackBits(s)
    else
      SizeOf(t, n);
      IntsBytes(IntValues(BitsBytes(s), Width(t), n, e), Width(t), Little)
  }

  lemma SizeOf(t: DataType, n: nat)
    requires !IsDataTypeBitBased(t) && !t.Unsupported?
    ensures n * BitLength(t) == 8 * (n * Width(t)) && NativeSize(t, n) == n * Width(t)
    ensures t.VisibleString? || t.OctetString? || t.Integer8? || t.Unsigned8? ==> n * Width(t) == n
  {
    assert BitLength(t) == 8 * Width(t);
    assert n * (8 * Width(t)) == 8 * (n * Width(t));
  }

  lemma EncodedSize(t: DataType, n: nat, d: seq<byte>, e: Endian)
    requires !t.NullType? && !t.Unsupported? && |d| == NativeSize(t, n)
    ensures |Encoded(t, n, d, e)| == n * BitLength(t)
  {
    hide BytesBits, ZeroFilled, Swapped;
    if !IsDataTypeBitBased(t) { SizeOf(t, n); }
  }

  /** Stream data of n elements in a single subindex access: strings end with their first NUL, if there is one. */
  function EncodedSingle(t: DataType, n: nat, d: seq<byte>, e: Endian): seq<bool>
    requires !t.NullType? && !t.Unsupported? && |d| == NativeSize(t, n)
  {
    if t.VisibleString? then BytesBits(d[..StrnLen(d)] + if StrnLen(d) < n then [0] else []) else Encoded(t, n, d, e)
  }

  /** DetermineSizeOfCANopenEncodedData. */
  function DetermineSize(t: DataType, n: nat, d: seq<byte>): nat
    requires |d| == NativeSize(t, n)
  {
    if t.VisibleString? then (if StrnLen(d) < n then StrnLen(d) + 1 else StrnLen(d)) * 8 else BitLength(t) * n
  }

  /** The preview of the size is the size of what is written. */
  lemma DeterminedSize(t: DataType, n: nat, d: seq<byte>, e: Endian)
    requires !t.NullType? && !t.Unsupported? && |d| == NativeSize(t, n)
    ensures |EncodedSingle(t, n, d, e)| == DetermineSize(t, n, d)
  {
    hide BytesBits, Encoded, StringLen;
    EncodedSize(t, n, d, e);
  }

  /** What a trip through the stream makes of native data. */
  function Normalised(t: DataType, n: nat, d: seq<byte>): seq<byte>
    requires !t.NullType? && !t.Unsupported? && |d| == NativeSize(t, n)
  {
    if t.Boolean? then BitsBools(BoolBits(d))
    else if t.VisibleString? then ZeroFilled(d)
    else if IsNativeDataStuffed(t) then PackBits(BytesBits(d)[..n * BitLength(t)])
    else d
  }

  // ---------------------------------------------------------------- laws

  lemma {:induction false} IntsRoundTrip(vs: seq<nat>, k: nat, e: Endian)
    requires forall i :: 0 <= i < |vs| ==> vs[i] < Pow2(8 * k)
    ensures IntValues(IntsBytes(vs, k, e), k, |vs|, e) == vs
  {
    hide Pow2, LeBytes, LeValue, Ordered;
    if vs != [] {
      var d := IntsBytes(vs, k, e);
      assert |vs| * k == k + |vs[1..]| * k;
      assert d[..k] == Ordered(LeBytes(vs[0], k), e) && d[k..] == IntsBytes(vs[1..], k, e);
      IntRoundTrip(vs[0], k, e);
      IntsRoundTrip(vs[1..], k, e);
    }
  }

  lemma {:induction false} BytesOfInts(d: seq<byte>, k: nat, n: nat)
    requires |d| == n * k
    ensures IntsBytes(IntValues(d, k, n, Little), k, Little) == d
    ensures forall i :: 0 <= i < n ==> IntValues(d, k, n, Little)[i] < Pow2(8 * k)
    decreases n
  {
    hide LeBytes, LeValue, Pow2;
    if n > 0 {
      assert n * k == k + (n - 1) * k;
      LeValueRange(d[..k]);
      BytesOfInts(d[k..], k, n - 1);
      assert d == d[..k] + d[k..];
    } else {
      assert d == [];
    }
  }

  lemma SwapTwice(d: seq<byte>, k: nat, n: nat, e: Endian)
    requires |d| == n * k
    ensures IntsBytes(IntValues(Swapped(d, k, n, e), k, n, e), k, Little) == d
  {
    hide IntsBytes, IntValues, Pow2;
    BytesOfInts(d, k, n);
    IntsRoundTrip(IntValues(d, k, n, Little), k, e);
  }

  lemma ZeroFilledTwice(d: seq<byte>)
    ensures ZeroFilled(ZeroFilled(d)) == ZeroFilled(d)
  {
    hide StringLen;
    var n, z := StrnLen(d), ZeroFilled(d);
    assert StrnLen(z) == n by {
      assert forall i :: 0 <= i < n ==> z[i] == d[i];
      if n < |d| { assert z[n] == 0; }
    }
  }

  lemma {:induction false} BoolBitsAt(d: seq<byte>, i: nat)
    requires i < |d|
    ensures BoolBits(d)[i] == (d[i] != 0)
  {
    if i > 0 { BoolBitsAt(d[1..], i - 1); }
  }

  lemma {:induction false} BitsBoolsAt(s: seq<bool>, i: nat)
    requires i < |s|
    ensures BitsBools(s)[i] == if s[i] then 1 else 0
  {
    if i > 0 { BitsBoolsAt(s[1..], i - 1); }
  }

  lemma {:induction false} RepeatAt(c: byte, n: nat, i: nat)
    requires i < n
    ensures Repeat(c, n)[i] == c
  {
    if i > 0 { RepeatAt(c, n - 1, i - 1); }
  }

  /** Character i survives if no character up to it is NUL. */
  lemma ZeroFilledAt(d: seq<byte>, i: nat)
    requires i < |d|
    ensures ZeroFilled(d)[i] == if 0 in d[..i + 1] then 0 else d[i]
  {
    hide Repeat, StringLen;
    var n := StrnLen(d);
    if i < n {
      assert 0 !in d[..i + 1];
    } else {
      assert d[..i + 1][n] == 0;
      RepeatAt(0, |d| - n, i - n);
    }
  }

  /** Number of bits in each element of a packed type. */
  function PackedBitsOf(t: DataType): nat { if t.BitN? then t.n else 1 }

  /** What the native data d of n elements is behind a trip through the stream. */
  ghost predicate Arrived(t: DataType, n: nat, d: seq<byte>, r: seq<byte>)
  {
    && |r| == |d|
    && (t.Boolean? ==> forall i :: 0 <= i < |d| ==> r[i] == if d[i] != 0 then 1 else 0)
    && (t.VisibleString? ==> forall i :: 0 <= i < |d| ==> r[i] == if 0 in d[..i + 1] then 0 else d[i])
    && (t.BitN? || t.BooleanNativeBit1? ==>
          forall j :: 0 <= j < 8 * |d| ==> BytesBits(r)[j] == (j < n * PackedBitsOf(t) && BytesBits(d)[j]))
    && (!t.Boolean? && !t.VisibleString? && !t.BitN? && !t.BooleanNativeBit1? ==> r == d)
  }

  /** Bytes of each element of the other types. */
  function ElementBytes(t: DataType): nat
  {
    if t.Integer16? || t.Unsigned16? || t.UnicodeString? then 2
    else if t.Integer32? || t.Unsigned32? || t.Real32? then 4
    else if t.Integer64? || t.Unsigned64? || t.Real64? then 8
    else 1
  }

  /** What s, the stream data of n elements, holds in byte order e: native data are little-endian. */
  ghost predicate Sent(t: DataType, n: nat, d: seq<byte>, e: Endian, s: seq<bool>)
  {
    if t.Boolean? then |s| == n == |d| && forall i :: 0 <= i < n ==> s[i] == (d[i] != 0)
    else if t.BitN? || t.BooleanNativeBit1? then
      |s| == n * PackedBitsOf(t) <= 8 * |d| && forall j :: 0 <= j < |s| ==> s[j] == BytesBits(d)[j]
    else
      && |s| == 8 * |d| && |d| == n * ElementBytes(t)
      && (t.VisibleString? ==> forall i :: 0 <= i < n ==> BitsBytes(s)[i] == if 0 in d[..i + 1] then 0 else d[i])
      && (!t.VisibleString? ==> forall i :: 0 <= i < n ==> ElementSent(d, BitsBytes(s), i, ElementBytes(t), e))
  }

  /** Element i of w bytes each is in the stream, its bytes in byte order e. */
  ghost predicate ElementSent(d: seq<byte>, r: seq<byte>, i: nat, w: nat, e: Endian)
  {
    i * w + w <= |d| == |r| && InOrder(d[i * w..i * w + w], r[i * w..i * w + w], e)
  }

  /** The little-endian bytes a in byte order e. */
  ghost predicate InOrder(a: seq<byte>, b: seq<byte>, e: Endian)
  {
    |b| == |a| && forall j :: 0 <= j < |a| ==> b[j] == a[if e == Little then j else |a| - 1 - j]
  }

  lemma SwappedSends(d: seq<byte>, k: nat, n: nat, e: Endian, i: nat)
    requires |d| == n * k && i < n
    ensures ElementSent(d, Swapped(d, k, n, e), i, k, e)
  {
    hide IntsBytes, IntValues, Pow2;
    var vs := IntValues(d, k, n, Little);
    BytesOfInts(d, k, n);
    IntsDigits(vs, k, Little);
    IntsDigits(vs, k, e);
    var p := i * k;
    assert Digits(d[p..p + k], vs[i], k, Little) && Digits(Swapped(d, k, n, e)[p..p + k], vs[i], k, e);
    SameDigits(d[p..p + k], Swapped(d, k, n, e)[p..p + k], vs[i], k, e);
  }

  lemma SameDigits(a: seq<byte>, b: seq<byte>, v: nat, k: nat, e: Endian)
    requires Digits(a, v, k, Little) && Digits(b, v, k, e)
    ensures InOrder(a, b, e)
  {
    hide Pow2;
  }

  /** What is sent. */
  lemma EncodedSends(t: DataType, n: nat, d: seq<byte>, e: Endian)
    requires !t.NullType? && !t.Unsupported? && |d| == NativeSize(t, n)
    ensures Sent(t, n, d, e, Encoded(t, n, d, e))
  {
    hide BytesBits, BitsBytes, Swapped, BoolBits, ElementSent, ZeroFilled;
    if t.Boolean? {
      forall i | 0 <= i < n ensures BoolBits(d)[i] == (d[i] != 0) { BoolBitsAt(d, i); }
    } else if !IsNativeDataStuffed(t) {
      SizeOf(t, n);
      if t.VisibleString? {
        BytesRoundTrip(ZeroFilled(d));
        forall i | 0 <= i < n ensures ZeroFilled(d)[i] == if 0 in d[..i + 1] then 0 else d[i] { ZeroFilledAt(d, i); }
      } else {
        BytesRoundTrip(Swapped(d, Width(t), n, e));
        forall i | 0 <= i < n ensures ElementSent(d, Swapped(d, Width(t), n, e), i, Width(t), e) {
          SwappedSends(d, Width(t), n, e, i);
        }
      }
    }
  }

  lemma PackedArrives(d: seq<byte>, k: nat)
    requires |d| == (k + 7) / 8
    ensures var r := PackBits(BytesBits(d)[..k]);
            |r| == |d| && forall j :: 0 <= j < 8 * |d| ==> BytesBits(r)[j] == (j < k && BytesBits(d)[j])
  {
    hide BytesBits, PackBits;
    PackedBits(BytesBits(d)[..k]);
  }

  /** What arrives, element by element. */
  lemma NormalisedArrives(t: DataType, n: nat, d: seq<byte>)
    requires !t.NullType? && !t.Unsupported? && |d| == NativeSize(t, n)
    ensures Arrived(t, n, d, Normalised(t, n, d))
  {
    hide BytesBits, PackBits, ZeroFilled, BoolBits, BitsBools;
    if t.Boolean? {
      forall i | 0 <= i < |d| ensures BitsBools(BoolBits(d))[i] == if d[i] != 0 then 1 else 0 {
        BoolBitsAt(d, i);
        BitsBoolsAt(BoolBits(d), i);
      }
    } else if t.VisibleString? {
      forall i | 0 <= i < |d| ensures ZeroFilled(d)[i] == if 0 in d[..i + 1] then 0 else d[i] { ZeroFilledAt(d, i); }
    } else if IsNativeDataStuffed(t) {
      PackedArrives(d, n * BitLength(t));
    }
  }

  /** Decoding what was encoded yields the normalised native data. */
  lemma DecodeEncoded(t: DataType, n: nat, d: seq<byte>, e: Endian)
    requires !t.NullType? && !t.Unsupported? && |d| == NativeSize(t, n)
    ensures |Encoded(t, n, d, e)| == n * BitLength(t)
    ensures Decoded(t, n, Encoded(t, n, d, e), e) == Normalised(t, n, d)
    ensures Arrived(t, n, d, Decoded(t, n, Encoded(t, n, d, e), e))
  {
    hide BytesBits, BitsBytes, ZeroFilled, IntsBytes, IntValues, PackBits, Arrived;
    NormalisedArrives(t, n, d);
    EncodedSize(t, n, d, e);
    if t.VisibleString? {
      BytesRoundTrip(ZeroFilled(d));
      ZeroFilledTwice(d);
    } else if !IsDataTypeBitBased(t) {
      SizeOf(t, n);
      BytesRoundTrip(Swapped(d, Width(t), n, e));
      SwapTwice(d, Width(t), n, e);
    }
  }

  lemma OneByteSwap(d: seq<byte>, e: Endian)
    ensures Swapped(d, 1, |d|, e) == d
  {
    OneByteInts(d, e);
  }

  lemma OneByteValue(c: byte)
    ensures LeValue([c]) == c
  {
    assert LeValue([c]) == c + 256 * LeValue([]);
  }

  lemma {:induction false} OneByteInts(d: seq<byte>, e: Endian)
    ensures IntsBytes(IntValues(d, 1, |d|, Little), 1, e) == d
    ensures IntsBytes(IntValues(d, 1, |d|, e), 1, Little) == d
  {
    hide LeValue;
    if d != [] {
      OneByteInts(d[1..], e);
      var c := d[..1];
      assert c == [d[0]] && Reverse(c) == c && c[1..] == [];
      OneByteValue(d[0]);
      assert LeBytes(d[0], 1) == c by { assert LeBytes(d[0], 1) == [d[0] % 256] + LeBytes(d[0] / 256, 0); }
      assert d == c + d[1..];
    }
  }

  // ---------------------------------------------------------------- the two conversions

  /** NativeDataToCANopenEncodedData; native holds at least the data of n elements. */
  method NativeDataToCANopenEncodedData(native: seq<byte>, t: DataType, n: nat, completeAccess: bool, out: MemStreamWriter)
    returns (st: Status)
    requires out.Valid() && |native| == NativeSize(t, n)
    modifies out, out.buffer
    ensures out.Valid()
    ensures n == 0 ==> st == InvalidArgument && out.Abs() == old(out.Abs())
    ensures n != 0 && (t.NullType? || t.Unsupported?) ==> st == DataTypeNotSupported && out.Abs() == old(out.Abs())
    ensures n != 0 && !t.NullType? && !t.Unsupported? ==>
              (out.Abs(), st) == Put(old(out.Abs()), !IsDataTypeBitBased(t),
                                     if completeAccess then Encoded(t, n, native, out.endian)
                                     else EncodedSingle(t, n, native, out.endian))
  {
    hide MemStreamWriter.Valid, MemStreamWriter.Abs;
    hide ToBits, FromBits, BytesBits, IntsBytes, IntValues, Put, StringLen, Repeat, AllDigits, LastBytes;
    if n == 0 { return InvalidArgument; }
    match t
    case Boolean =>
      var bools := Bools(native);
      st := WriteBools(out, bools);
    case Integer8 | Unsigned8 | OctetString =>
      OneByteSwap(native, out.endian);
      st := out.PushBlock(native);
    case Integer16 | Unsigned16 | UnicodeString | Integer32 | Unsigned32 | Real32 | Integer64 | Unsigned64 | Real64 =>
      SizeOf(t, n);
      st := WriteUints(out, IntValues(native, Width(t), n, Little), Width(t));
    case VisibleString =>
      SizeOf(t, n);
      var len := StrnLen(native);
      var chars := native[..len];
      if completeAccess {
        PushBytesTwice(out.Abs(), chars, Repeat(0, n - len));
        st := out.PushBlock(chars);
        if st == Ok { st := FillBytes(out, n - len, 0); }
      } else {
        PushBytesTwice(out.Abs(), chars, if len < n then [0] else []);
        st := out.PushBlock(chars);
        if st == Ok {
          PushOne(out.Abs(), 0);
          NoBytes(out.Abs());
          if len < n { st := out.Push(0); }
        }
      }
    case BitN(_) | BooleanNativeBit1 =>
      st := WriteChunks(out, native, n * BitLength(t));
    case NullType | Unsupported =>
      return DataTypeNotSupported;
  }

  lemma NoBytes(w: Writer)
    ensures PushBytes(w, []) == (w, Ok)
  {
  }

  /** The native bools as booleans. */
  method Bools(native: seq<byte>) returns (b: seq<bool>)
    ensures b == BoolBits(native)
  {
    b := BoolBits(native);
  }

  /** Bit-based native data, written in chunks of up to eight bits. */
  method WriteChunks(out: MemStreamWriter, native: seq<byte>, n: nat) returns (st: Status)
    requires out.Valid() && n <= 8 * |native|
    modifies out, out.buffer
    ensures out.Valid() && (out.Abs(), st) == PushRun(old(out.Abs()), BytesBits(native)[..n])
  {
    hide MemStreamWriter.Valid, MemStreamWriter.Abs;
    hide ToBits, BytesBits, PushRun;
    ghost var w0, all := out.Abs(), BytesBits(native)[..n];
    var p, nBits: nat := 0, n;
    st := Ok;
    NoRun(w0);
    assert all[..0] == [];
    while nBits != 0
      invariant nBits <= n && (nBits > 0 ==> 8 * p == n - nBits)
      invariant out.Valid() && st == Ok && (out.Abs(), Ok) == PushRun(w0, all[..n - nBits])
    {
      var chunkSize: nat := if nBits > 8 then 8 else nBits;
      ByteAt(native, p);
      ToBitsPrefix(native[p], 8, chunkSize);
      assert all[8 * p..8 * p + chunkSize] == ToBits(native[p], chunkSize);
      PrefixRun(w0, all, 8 * p, chunkSize);
      ChunkIsRun(out.Abs(), native[p], chunkSize);
      st := out.PushBits(native[p], chunkSize);
      if st != Ok { return; }
      p, nBits := p + 1, nBits - chunkSize;
    }
    assert all[..n] == all;
  }

  lemma NoRun(w: Writer)
    ensures PushRun(w, []) == (w, Ok)
  {
  }

  lemma ChunkIsRun(w: Writer, bits: nat, n: nat)
    requires n <= 8
    ensures StreamSpec.PushBits(w, bits, n) == PushRun(w, ToBits(bits, n))
  {
  }

  lemma PrefixRun(w: Writer, all: seq<bool>, a: nat, m: nat)
    requires a + m <= |all|
    ensures var (w1, s1) := PushRun(w, all[..a]);
            PushRun(w, all[..a + m]) == if s1 == Ok then PushRun(w1, all[a..a + m]) else (w1, s1)
    ensures var (w1, s1) := PushRun(w, all[..a + m]); s1 != Ok ==> PushRun(w, all) == (w1, s1)
  {
    hide PushRun;
    assert all[..a + m] == all[..a] + all[a..a + m];
    PushRunTwice(w, all[..a], all[a..a + m]);
    assert all == all[..a + m] + all[a + m..];
    PushRunTwice(w, all[..a + m], all[a + m..]);
  }

  datatype NativeRead = NativeRead(rd: Reader, st: Status, native: seq<byte>)

  /** A visible string of at most n characters, read with all bytes the stream has left. */
  function ReadVisibleString(r: Reader, n: nat): (f: NativeRead)
    ensures f.st == Ok ==> |f.native| == n
  {
    match r
    case ReadFailed => NativeRead(r, ErrorStateError, [])
    case ReadClosed => NativeRead(r, ClosedError, [])
    case Reading(_, _) =>
      var left := |RestBytes(r)|;
      var rb := if left > n then n else left;
      var f := FetchBytes(r, rb);
      NativeRead(f.rd, f.st, if f.st != Ok then [] else
                               var d := BitsBytes(f.val);
                               if rb < n then ZeroFilled(d + Repeat(0, n - rb)) else d)
  }

  /** Native data of n elements taken from a stream. */
  function ReadNative(r: Reader, t: DataType, n: nat, completeAccess: bool, e: Endian): (f: NativeRead)
    requires !t.NullType? && !t.Unsupported?
    ensures f.st == Ok ==> |f.native| == NativeSize(t, n)
  {
    if t.VisibleString? && !completeAccess then ReadVisibleString(r, n) else
      var f := Get(r, !IsDataTypeBitBased(t), n * BitLength(t));
      NativeRead(f.rd, f.st, if f.st != Ok then [] else Decoded(t, n, f.val, e))
  }

  /** CANopenEncodedDataToNativeData. */
  method CANopenEncodedDataToNativeData(inp: MemStreamReader, t: DataType, n: nat, completeAccess: bool)
    returns (st: Status, native: seq<byte>)
    requires inp.Valid()
    modifies inp
    ensures inp.Valid()
    ensures n == 0 ==> st == InvalidArgument && inp.Abs() == old(inp.Abs())
    ensures n != 0 && (t.NullType? || t.Unsupported?) ==> st == DataTypeNotSupported && inp.Abs() == old(inp.Abs())
    ensures n != 0 && !t.NullType? && !t.Unsupported? ==>
              NativeRead(inp.Abs(), st, native) == ReadNative(old(inp.Abs()), t, n, completeAccess, inp.endian)
  {
    hide MemStreamReader.Valid, MemStreamReader.Abs;
    hide ToBits, FromBits, BytesBits, BitsBytes, IntsBytes, IntValues, Get, StringLen, Repeat, PackBits, RestBytes, AllDigits,
         PassedBytes, Pow2;
    native := [];
    if n == 0 { return InvalidArgument, []; }
    match t
    case Boolean =>
      var bools;
      st, bools := ReadBools(inp, n);
      if st == Ok { native := BitsBools(bools); }
    case Integer8 | Unsigned8 | OctetString =>
      SizeOf(t, n);
      var d;
      st, d := inp.PopBlock(n);
      if st == Ok {
        BytesRoundTrip(d);
        OneByteInts(d, inp.endian);
        native := d;
      }
    case Integer16 | Unsigned16 | UnicodeString | Integer32 | Unsigned32 | Real32 | Integer64 | Unsigned64 | Real64 =>
      SizeOf(t, n);
      var vs;
      st, vs := ReadUints(inp, Width(t), n);
      if st == Ok { native := IntsBytes(vs, Width(t), Little); }
    case VisibleString =>
      SizeOf(t, n);
      if completeAccess {
        var d;
        st, d := inp.PopBlock(n);
        if st == Ok {
          BytesRoundTrip(d);
          // zeros behind the terminator
          native := ZeroFilled(d);
        }
      } else {
        // at most what the stream still holds
        var rb;
        st, rb := inp.RemainingBytes();
        if st != Ok { return; }
        if rb > n { rb := n; }
        var d;
        st, d := inp.PopBlock(rb);
        if st == Ok {
          BytesRoundTrip(d);
          native := if rb < n then ZeroFilled(d + Repeat(0, n - rb)) else d;
        }
      }
    case BitN(_) | BooleanNativeBit1 =>
      var d;
      st, d := ReadBitArray(inp, n * BitLength(t));
      if st == Ok { native := d; }
    case NullType | Unsupported =>
      return DataTypeNotSupported, [];
  }
}
