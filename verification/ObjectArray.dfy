/**
 ARRAY object of the object dictionary (src/cood/ObjectARRAY.cpp). Elements of bit-based types are packed and may cross
 byte boundaries.
 */
module ObjectArrays {
  import opened UInt
  import opened StreamSpec
  import opened MemStreamWriters
  import opened MemStreamReaders
  import opened StreamWriterBase
  import opened StreamReaderBase
  import opened DataTypes
  import opened ObjectCodec
  import opened BitMemory
  import opened RecordSpec
  import opened ObjectRecords
  import RecordRoundTrip

  /** Types an array accepts. */
  predicate ArrayType(t: DataType)
  {
    !IsArrayType(t) && !t.NullType? && !t.Unsupported?
  }

  /** Native bits of n elements. */
  function DataBits(t: DataType, n: nat): nat
  {
    if IsNativeDataStuffed(t) then n * BitLength(t) else 8 * NativeSize(t, n)
  }

  lemma NativeBits(t: DataType, n: nat)
    requires ArrayType(t)
    ensures NativeSize(t, n) == (DataBits(t, n) + 7) / 8
    ensures !IsNativeDataStuffed(t) ==> DataBits(t, n) == NativeBitLength(t) * n
  {
    if !IsDataTypeBitBased(t) { SizeOf(t, n); }
  }

  lemma {:induction false} SizeMono(t: DataType, n: nat, m: nat)
    requires ArrayType(t) && n <= m
    ensures DataBits(t, n) <= DataBits(t, m) && NativeSize(t, n) <= NativeSize(t, m)
  {
    hide BitLength, NativeBitLength, NativeSize;
    NativeBits(t, n);
    NativeBits(t, m);
    var k := if IsNativeDataStuffed(t) then BitLength(t) else NativeBitLength(t);
    MulMono(n, m, k);
  }

  lemma WholeBytes(t: DataType)
    requires ArrayType(t) && !IsNativeDataStuffed(t)
    ensures NativeBitLength(t) == 8 * (NativeBitLength(t) / 8) && NativeBitLength(t) / 8 == NativeSize(t, 1)
  {
  }

  lemma EightTimes(m: nat, k: nat)
    ensures (8 * m) * k == 8 * (k * m) && (k > 0 ==> k * m == (k - 1) * m + m)
  {
  }

  // ---------------------------------------------------------------- specification

  datatype ArrayState = ArrayState(si0: nat, mem: seq<bool>)

  datatype ArrayDescr = ArrayDescr(attributesSI0: nat, minSI0: nat, maxSI0: nat, type_: DataType, attributes: nat)

  ghost predicate ValidDescr(a: ArrayDescr)
  {
    && And(a.attributesSI0, ATTR_ACCESS_RD) != 0
    && a.minSI0 <= a.maxSI0 < 256
    && ArrayType(a.type_)
    && And(a.attributes, ATTR_ACCESS_RW) != 0
  }

  ghost predicate ValidState(a: ArrayDescr, s: ArrayState)
  {
    && ValidDescr(a)
    && a.minSI0 <= s.si0 <= a.maxSI0
    && |s.mem| % 8 == 0 && NativeSize(a.type_, a.maxSI0) <= |s.mem| / 8
  }

  /** The native data of the first n elements as bytes. */
  function NativeOf(t: DataType, n: nat, mem: seq<bool>): (d: seq<byte>)
    requires 8 * NativeSize(t, n) <= |mem|
    ensures |d| == NativeSize(t, n)
  {
    BitsBytes(mem[..8 * NativeSize(t, n)])
  }

  /** Stream data of n elements; write-only data reads as zero. */
  function ArrayImage(a: ArrayDescr, n: nat, mem: seq<bool>, e: Endian): seq<bool>
    requires ArrayType(a.type_) && 8 * NativeSize(a.type_, n) <= |mem|
  {
    if And(a.attributes, ATTR_ACCESS_RD) == 0 then Const(n * BitLength(a.type_), false)
    else Encoded(a.type_, n, NativeOf(a.type_, n, mem), e)
  }

  function ArrayCompleteRead(w: Writer, a: ArrayDescr, s: ArrayState, inclSI0: bool, SI016Bits: bool, permissions: nat,
                             beforeRead: SDOAbortCode, e: Endian): (Writer, Outcome)
    requires ArrayType(a.type_) && 8 * NativeSize(a.type_, s.si0) <= |s.mem|
  {
    if inclSI0 && And(And(a.attributesSI0, ATTR_ACCESS_RD), permissions) == 0 then (w, Done(AttemptToReadWrOnlyObject))
    else if !inclSI0 && s.si0 == 0 then (w, Done(OK))
    else if s.si0 != 0 && And(a.attributes, ATTR_ACCESS_RD) != 0 && And(And(a.attributes, ATTR_ACCESS_RD), permissions) == 0 then
      (w, Done(AttemptToReadWrOnlyObject))
    else if beforeRead != OK then (w, Done(beforeRead))
    else
      var (w1, st1) := if inclSI0 then PushBytes(w, Ordered(LeBytes(s.si0, SI0Size(SI016Bits)), e)) else (w, Ok);
      if st1 != Ok then (w1, Threw(st1))
      else Finished(Put(w1, !IsDataTypeBitBased(a.type_), ArrayImage(a, s.si0, s.mem, e)))
  }

  /** Memory with the native data of n elements taken from the stream data v. */
  function ArrayStored(a: ArrayDescr, n: nat, mem: seq<bool>, v: seq<bool>, e: Endian): (r: seq<bool>)
    requires ArrayType(a.type_) && |v| == n * BitLength(a.type_)
    ensures |r| == |mem|
  {
    if And(a.attributes, ATTR_ACCESS_WR) == 0 || DataBits(a.type_, n) > |mem| then mem
    else Splice(mem, 0, if IsNativeDataStuffed(a.type_) then v else BytesBits(Decoded(a.type_, n, v, e)))
  }

  /** A read-only SI0 must match the current one; another one must be in its bounds. */
  function CheckSI0(a: ArrayDescr, s: ArrayState, n: nat): SDOAbortCode
  {
    if And(a.attributesSI0, ATTR_ACCESS_WR) == 0 then (if n != s.si0 then UnsupportedAccessToObject else OK)
    else if n < a.minSI0 then ValueTooLow
    else if n > a.maxSI0 then ValueTooHigh
    else OK
  }

  datatype ArrayWriteResult = ArrayWriteResult(rd: Reader, s: ArrayState, out: Outcome)

  function ArrayCompleteWrite(r: Reader, a: ArrayDescr, s: ArrayState, inclSI0: bool, SI016Bits: bool, permissions: nat,
                              ernob: Expectation, beforeWrite: SDOAbortCode, e: Endian): ArrayWriteResult
    requires ArrayType(a.type_)
  {
    var si0RO := And(a.attributesSI0, ATTR_ACCESS_WR) == 0;
    var dataRO := And(a.attributes, ATTR_ACCESS_WR) == 0;
    if inclSI0 && !si0RO && And(And(a.attributesSI0, ATTR_ACCESS_WR), permissions) == 0 then
      ArrayWriteResult(r, s, Done(AttemptToWriteRdOnlyObject))
    else
      var f := FetchBytes(r, if inclSI0 then SI0Size(SI016Bits) else 0);
      if f.st != Ok then ArrayWriteResult(f.rd, s, StreamError(f.st)) else
        var n := if inclSI0 then IntValue(BitsBytes(f.val), e) else s.si0;
        if inclSI0 && CheckSI0(a, s, n) != OK then ArrayWriteResult(f.rd, s, Done(CheckSI0(a, s, n)))
        else if n != 0 && !dataRO && And(And(a.attributes, ATTR_ACCESS_WR), permissions) == 0 then
          ArrayWriteResult(f.rd, s, Done(AttemptToWriteRdOnlyObject))
        else
          WriteElements(f.rd, a, s, n, ernob, beforeWrite, e)
  }

  /** The data part of complete write, for n elements. */
  function WriteElements(r: Reader, a: ArrayDescr, s: ArrayState, n: nat, ernob: Expectation, beforeWrite: SDOAbortCode,
                         e: Endian): ArrayWriteResult
    requires ArrayType(a.type_)
  {
    var g := Get(r, !IsDataTypeBitBased(a.type_), n * BitLength(a.type_));
    var st := if g.st != Ok then g.st else Consumed(g.rd, ernob);
    if st != Ok then ArrayWriteResult(g.rd, s, StreamError(st))
    else if beforeWrite != OK then ArrayWriteResult(g.rd, s, Done(beforeWrite))
    else ArrayWriteResult(g.rd, ArrayState(n, ArrayStored(a, n, s.mem, g.val, e)), Done(OK))
  }

  /** Native bits of subindex k. */
  function Element(t: DataType, k: nat, mem: seq<bool>): seq<bool>
    requires k > 0
  {
    if DataBits(t, k - 1) <= DataBits(t, k) <= |mem| then mem[DataBits(t, k - 1)..DataBits(t, k)] else []
  }

  /** Stream data of a native element. */
  function ElementToStream(t: DataType, cell: seq<bool>, e: Endian): seq<bool>
    requires ArrayType(t)
  {
    if IsNativeDataStuffed(t) || |cell| / 8 != NativeSize(t, 1) then cell else Encoded(t, 1, BitsBytes(cell), e)
  }

  function ArrayRead(w: Writer, a: ArrayDescr, s: ArrayState, subIdx: nat, permissions: nat, beforeRead: SDOAbortCode, e: Endian)
    : (Writer, Outcome)
    requires ArrayType(a.type_) && s.si0 < 256
  {
    if subIdx > s.si0 then (w, Done(SubindexDoesNotExist))
    else if And(And(if subIdx == 0 then a.attributesSI0 else a.attributes, ATTR_ACCESS_RD), permissions) == 0 then
      (w, Done(AttemptToReadWrOnlyObject))
    else if beforeRead != OK then (w, Done(beforeRead))
    else if subIdx == 0 then Finished(PushByte(w, s.si0))
    else Finished(Put(w, !IsDataTypeBitBased(a.type_), ElementToStream(a.type_, Element(a.type_, subIdx, s.mem), e)))
  }

  function ArrayWrite(r: Reader, a: ArrayDescr, s: ArrayState, subIdx: nat, permissions: nat, beforeWrite: SDOAbortCode, e: Endian)
    : ArrayWriteResult
    requires ArrayType(a.type_)
  {
    if subIdx > s.si0 then ArrayWriteResult(r, s, Done(SubindexDoesNotExist))
    else if And(And(if subIdx == 0 then a.attributesSI0 else a.attributes, ATTR_ACCESS_WR), permissions) == 0 then
      ArrayWriteResult(r, s, Done(AttemptToWriteRdOnlyObject))
    else
      var f := if subIdx == 0 then Fetch(r, true, 8) else Get(r, !IsDataTypeBitBased(a.type_), BitLength(a.type_));
      var st := if f.st != Ok then f.st else Consumed(f.rd, SevenOrLess);
      if st != Ok then ArrayWriteResult(f.rd, s, StreamError(st))
      else if subIdx == 0 then
        var n := FromBits(f.val);
        if n < a.minSI0 then ArrayWriteResult(f.rd, s, Done(ValueTooLow))
        else if n > a.maxSI0 then ArrayWriteResult(f.rd, s, Done(ValueTooHigh))
        else if beforeWrite != OK then ArrayWriteResult(f.rd, s, Done(beforeWrite))
        else ArrayWriteResult(f.rd, s.(si0 := n), Done(OK))
      else if beforeWrite != OK then ArrayWriteResult(f.rd, s, Done(beforeWrite))
      else
        var cell := if IsNativeDataStuffed(a.type_) then f.val else BytesBits(Decoded(a.type_, 1, f.val, e));
        ArrayWriteResult(f.rd, s.(mem := PutElement(a.type_, subIdx, s.mem, cell)), Done(OK))
  }

  function PutElement(t: DataType, k: nat, mem: seq<bool>, cell: seq<bool>): seq<bool>
    requires k > 0
  {
    if DataBits(t, k - 1) + |cell| <= |mem| then Splice(mem, DataBits(t, k - 1), cell) else mem
  }

  // ---------------------------------------------------------------- bits of packed elements

  lemma {:induction false} ShrSum(a: nat, b: nat, k: nat, off: nat)
    requires off <= k
    ensures Shr(a + Shl(b, k), off) == Shr(a, off) + Shl(b, k - off)
    decreases off
  {
    if off > 0 {
      assert (a + Shl(b, k)) / 2 == a / 2 + Shl(b, k - 1);
      ShrSum(a / 2, b, k - 1, off - 1);
    }
  }

  /** Shifting the parts into place is shifting the word. */
  lemma ShiftedWord(b0: byte, b1: byte, off: nat)
    requires off <= 7
    ensures Or(Shr(b0, off), Shl(b1, 8 - off)) == Shr(Or(b0, Shl(b1, 8)), off)
  {
    hide Shr, Shl, Or;
    assert Pow2(8) == 256;
    OrDisjoint(b0, b1, 8);
    ShrRange(b0, 8 - off, off);
    OrDisjoint(Shr(b0, off), b1, 8 - off);
    ShrSum(b0, b1, 8, off);
  }

  class ObjectARRAY {
    const descr: ArrayDescr
    var SI0: nat
    var pData: array<byte>

    ghost function State(): ArrayState
      reads this, pData
    {
      ArrayState(SI0, BytesBits(pData[..]))
    }

    ghost predicate Valid()
      reads this, pData
    {
      ValidState(descr, State())
    }

    constructor (d: ArrayDescr, si0: nat, data: array<byte>)
      requires ValidDescr(d) && d.minSI0 <= si0 <= d.maxSI0 && NativeSize(d.type_, d.maxSI0) <= data.Length
      ensures Valid() && descr == d && SI0 == si0 && pData == data
    {
      hide BytesBits, And, NativeSize, ArrayType;
      descr, SI0, pData := d, si0, data;
      new;
      WholeOctets(data.Length);
    }

    lemma WholeOctets(n: nat)
      ensures 8 * n % 8 == 0 && 8 * n / 8 == n
    {
    }

    /** GetObjectStreamSize. */
    function GetObjectStreamSize(SI016Bits: bool): (n: nat)
      reads this
      ensures n == 8 * SI0Size(SI016Bits) + SI0 * BitLength(descr.type_)
    {
      BitLength(descr.type_) * SI0 + if SI016Bits then 16 else 8
    }

    /** Where the bits of an element lie. */
    lemma ElementBounds(subIdx: nat)
      requires Valid() && IsNativeDataStuffed(descr.type_) && 1 <= subIdx <= SI0
      ensures var w, lo := BitLength(descr.type_), (subIdx - 1) * BitLength(descr.type_);
              1 <= w <= 8 && subIdx * w == lo + w <= 8 * pData.Length == |State().mem|
    {
      hide BytesBits, And;
      var w := BitLength(descr.type_);
      SizeMono(descr.type_, subIdx, descr.maxSI0);
      NativeBits(descr.type_, subIdx);
      NativeBits(descr.type_, descr.maxSI0);
      assert subIdx * w == (subIdx - 1) * w + w;
    }

    /** ReadBitsFromMem. */
    method ReadBitsFromMem(subIdx: nat) returns (v: byte, ghost lo: nat, ghost hi: nat)
      requires Valid() && IsNativeDataStuffed(descr.type_) && 1 <= subIdx <= SI0
      ensures lo == (subIdx - 1) * BitLength(descr.type_) && hi == subIdx * BitLength(descr.type_)
      ensures v < Pow2(BitLength(descr.type_)) && lo <= hi <= |State().mem|
      ensures ToBits(v, BitLength(descr.type_)) == State().mem[lo..hi]
    {
      hide BytesBits, ToBits, Pow2, BitLength, IsNativeDataStuffed, And, NativeSize, ObjectARRAY.Valid;
      var w := BitLength(descr.type_);
      ElementBounds(subIdx);
      var bitOffset := (subIdx - 1) * w;
      lo, hi := bitOffset, subIdx * w;
      v := ReadBitsAt(bitOffset, w);
    }

    /** w bits at a bit offset; they may cross a byte boundary. */
    method ReadBitsAt(offset: nat, w: nat) returns (v: byte)
      requires 1 <= w <= 8 && offset + w <= 8 * pData.Length
      ensures v < Pow2(w) && ToBits(v, w) == BytesBits(pData[..])[offset..offset + w]
    {
      hide BytesBits, ToBits, Shr, Shl, Or, And, Low, Pow2;
      var p, bitOffset := offset / 8, offset % 8;
      var bits: nat := Shr(pData[p], bitOffset);
      var loadedBits := 8 - bitOffset;
      // the element continues in the next byte
      if loadedBits < w {
        bits := Or(bits, Shl(pData[p + 1], loadedBits));
        ShiftedWord(pData[p], pData[p + 1], bitOffset);
        BitsInWord(pData[..], p, bitOffset, w);
      } else {
        BitsInByte(pData[..], p, bitOffset, w);
      }
      // bits above bit 7 are dropped
      LowPrefix(bits, w);
      bits := Low(bits, 8);
      Masked(bits, w);
      v := And(bits, Mask(w));
    }

    lemma Masked(v: nat, w: nat)
      ensures And(v, Mask(w)) == Low(v, w) < Pow2(w) && ToBits(Low(v, w), w) == ToBits(v, w)
    {
      hide ToBits;
      AndMask(v, w);
      ToBitsLow(v, w, 0);
      assert ToBits(v, w) + [] == ToBits(v, w);
    }

    /** WriteBitsToMem. */
    method WriteBitsToMem(subIdx: nat, data: byte)
      requires Valid() && IsNativeDataStuffed(descr.type_) && 1 <= subIdx <= SI0
      modifies pData
      ensures Valid()
      ensures DataBits(descr.type_, subIdx) <= |State().mem|
      ensures State() == ArrayState(SI0, PutElement(descr.type_, subIdx, old(State()).mem, ToBits(data, BitLength(descr.type_))))
    {
      hide BytesBits, ToBits, Splice, BitLength, IsNativeDataStuffed, And, NativeSize;
      var w := BitLength(descr.type_);
      ElementBounds(subIdx);
      WriteBitsAt((subIdx - 1) * w, w, data);
    }

    /** Replaces w bits at a bit offset. */
    method WriteBitsAt(offset: nat, w: nat, data: byte)
      requires 1 <= w <= 8 && offset + w <= 8 * pData.Length
      modifies pData
      ensures BytesBits(pData[..]) == Splice(BytesBits(old(pData[..])), offset, ToBits(data, w))
    {
      hide BytesBits, ToBits, Shr, Shl, Or, And, Low, Pow2, Not, Splice;
      ghost var mem: seq<byte> := pData[..];
      var p, bitOffset := offset / 8, offset % 8;
      var mask := Mask(w);
      // if the next byte also contains some bits, then it is read and written, too
      if 8 - bitOffset < w {
        ReplacedInWord(mem, p, bitOffset, w, data);
        var bits := Or(pData[p], Shl(pData[p + 1], 8));
        bits := And(bits, Not(Shl(mask, bitOffset), 16));
        bits := Or(bits, Shl(And(data, mask), bitOffset));
        var lo: byte, hi: byte := Low(bits, 8), Low(Shr(bits, 8), 8);
        pData[p] := lo;
        pData[p + 1] := hi;
        assert pData[..] == mem[p := lo][p + 1 := hi];
      } else {
        ReplacedInByte(mem, p, bitOffset, w, data);
        var bits := And(pData[p] as nat, Not(Shl(mask, bitOffset), 8));
        var b: byte := Or(bits, Shl(And(data, mask), bitOffset));
        pData[p] := b;
        assert pData[..] == mem[p := b];
      }
    }

    /** Native bytes of one element of a byte-based type, or of a native bool. */
    lemma ElementBytes(subIdx: nat)
      requires Valid() && !IsNativeDataStuffed(descr.type_) && 1 <= subIdx <= SI0
      ensures var t, n := descr.type_, NativeBitLength(descr.type_) / 8;
              && n == NativeSize(t, 1)
              && DataBits(t, subIdx - 1) == 8 * ((subIdx - 1) * n) && DataBits(t, subIdx) == 8 * ((subIdx - 1) * n + n)
              && (subIdx - 1) * n + n <= pData.Length
              && Element(t, subIdx, State().mem) == BytesBits(pData[..][(subIdx - 1) * n..(subIdx - 1) * n + n])
    {
      hide BytesBits, And, NativeSize, NativeBitLength, BitLength, IsArrayType;
      var t, n := descr.type_, NativeBitLength(descr.type_) / 8;
      SizeMono(t, subIdx, descr.maxSI0);
      NativeBits(t, 1);
      NativeBits(t, subIdx - 1);
      NativeBits(t, subIdx);
      NativeBits(t, descr.maxSI0);
      WholeBytes(t);
      EightTimes(n, subIdx);
      EightTimes(n, subIdx - 1);
      BytesSlice(pData[..], (subIdx - 1) * n, (subIdx - 1) * n + n);
    }

    lemma PackedElement(subIdx: nat, v: byte, e: Endian, lo: nat, hi: nat)
      requires Valid() && IsNativeDataStuffed(descr.type_) && 1 <= subIdx <= SI0
      requires lo == (subIdx - 1) * BitLength(descr.type_) && hi == subIdx * BitLength(descr.type_)
      requires lo <= hi <= |State().mem| && ToBits(v, BitLength(descr.type_)) == State().mem[lo..hi]
      ensures NativeSize(descr.type_, 1) == 1
      ensures EncodedSingle(descr.type_, 1, [v], e) == Element(descr.type_, subIdx, State().mem)
    {
      hide ToBits, BytesBits, And;
      BytesBitsOne(v);
      ToBitsPrefix(v, 8, BitLength(descr.type_));
      SizeMono(descr.type_, subIdx - 1, subIdx);
    }

    /** Read: one subindex. */
    method Read(subIdx: nat, permissions: nat, beforeRead: SDOAbortCode, w: MemStreamWriter) returns (out: Outcome)
      requires Valid() && w.Valid() && w.buffer != pData
      modifies w, w.buffer
      ensures Valid() && w.Valid() && State() == old(State())
      ensures (w.Abs(), out) == ArrayRead(old(w.Abs()), descr, State(), subIdx, permissions, beforeRead, w.endian)
    {
      hide MemStreamWriter.Valid, MemStreamWriter.Abs;
      hide ToBits, BytesBits, BitsBytes, And, Put, Encoded, Element, DataBits;
      ghost var mem := pData[..];
      if subIdx > SI0 { return Done(SubindexDoesNotExist); }
      var st;
      if subIdx == 0 {
        if And(And(descr.attributesSI0, ATTR_ACCESS_RD), permissions) == 0 { return Done(AttemptToReadWrOnlyObject); }
        if beforeRead != OK { return Done(beforeRead); }
        st := w.Push(SI0);
      } else {
        if And(And(descr.attributes, ATTR_ACCESS_RD), permissions) == 0 { return Done(AttemptToReadWrOnlyObject); }
        if beforeRead != OK { return Done(beforeRead); }
        if IsNativeDataStuffed(descr.type_) {
          var bits, lo, hi := ReadBitsFromMem(subIdx);
          PackedElement(subIdx, bits, w.endian, lo, hi);
          st := NativeDataToCANopenEncodedData([bits], descr.type_, 1, false, w);
        } else {
          ElementBytes(subIdx);
          var n := NativeBitLength(descr.type_) / 8;
          var native := pData[(subIdx - 1) * n..(subIdx - 1) * n + n];
          assert native == mem[(subIdx - 1) * n..(subIdx - 1) * n + n];
          BytesRoundTrip(native);
          st := NativeDataToCANopenEncodedData(native, descr.type_, 1, false, w);
        }
      }
      assert pData[..] == mem;
      return if st == Ok then Done(OK) else Threw(st);
    }

    /** Write: one subindex; subindex 0 resizes the array. */
    method Write(subIdx: nat, permissions: nat, beforeWrite: SDOAbortCode, r: MemStreamReader) returns (out: Outcome)
      requires Valid() && r.Valid()
      modifies r, this`SI0, pData
      ensures Valid() && r.Valid()
      ensures ArrayWriteResult(r.Abs(), State(), out) ==
              ArrayWrite(old(r.Abs()), descr, old(State()), subIdx, permissions, beforeWrite, r.endian)
    {
      hide MemStreamReader.Valid, MemStreamReader.Abs;
      hide ToBits, FromBits, BytesBits, BitsBytes, And, Get, Decoded, DataBits, Splice, PackBits;
      ghost var mem := pData[..];
      if subIdx > SI0 { return Done(SubindexDoesNotExist); }
      if subIdx == 0 {
        if And(And(descr.attributesSI0, ATTR_ACCESS_WR), permissions) == 0 { return Done(AttemptToWriteRdOnlyObject); }
        var st, data := r.Pop();
        if st == Ok { st := r.EnsureAllDataConsumed(SevenOrLess); }
        assert pData[..] == mem;
        if st != Ok { return StreamError(st); }
        // check range
        if data < descr.minSI0 { return Done(ValueTooLow); }
        if data > descr.maxSI0 { return Done(ValueTooHigh); }
        if beforeWrite != OK { return Done(beforeWrite); }
        SI0 := data;
        assert pData[..] == mem;
      } else {
        if And(And(descr.attributes, ATTR_ACCESS_WR), permissions) == 0 { return Done(AttemptToWriteRdOnlyObject); }
        out := WriteElement(subIdx, beforeWrite, r);
        return;
      }
      return Done(OK);
    }

    /** Write for subindices other than 0, after the permission check. */
    method WriteElement(subIdx: nat, beforeWrite: SDOAbortCode, r: MemStreamReader) returns (out: Outcome)
      requires Valid() && r.Valid() && 1 <= subIdx <= SI0
      modifies r, pData
      ensures Valid() && r.Valid()
      ensures var t := descr.type_;
              var f := Get(old(r.Abs()), !IsDataTypeBitBased(t), BitLength(t));
              var st := if f.st != Ok then f.st else Consumed(f.rd, SevenOrLess);
              && r.Abs() == f.rd
              && out == (if st != Ok then StreamError(st) else if beforeWrite != OK then Done(beforeWrite) else Done(OK))
              && State() == if st != Ok || beforeWrite != OK then old(State()) else
                  old(State()).(mem := PutElement(t, subIdx, old(State()).mem,
                                                  if IsNativeDataStuffed(t) then f.val else BytesBits(Decoded(t, 1, f.val, r.endian))))
    {
      hide MemStreamReader.Valid, MemStreamReader.Abs;
      hide ToBits, FromBits, BytesBits, BitsBytes, And, Get, Splice, PackBits, IntsBytes, IntValues, ZeroFilled;
      ghost var mem, f := pData[..], Get(r.Abs(), !IsDataTypeBitBased(descr.type_), BitLength(descr.type_));
      var st, native := CANopenEncodedDataToNativeData(r, descr.type_, 1, false);
      if st == Ok { st := r.EnsureAllDataConsumed(SevenOrLess); }
      assert pData[..] == mem;
      if st != Ok { return StreamError(st); }
      if beforeWrite != OK { return Done(beforeWrite); }
      if IsNativeDataStuffed(descr.type_) {
        ElementBounds(subIdx);
        PackedByte(f.val, native);
        WriteBitsToMem(subIdx, native[0]);
      } else {
        ElementBytes(subIdx);
        CopyTo(pData, (subIdx - 1) * (NativeBitLength(descr.type_) / 8), native);
      }
      return Done(OK);
    }

    lemma FirstBytes(n: nat)
      requires Valid() && n <= descr.maxSI0
      ensures NativeSize(descr.type_, n) <= pData.Length && DataBits(descr.type_, n) <= |State().mem|
      ensures NativeOf(descr.type_, n, State().mem) == pData[..][..NativeSize(descr.type_, n)]
    {
      hide BytesBits, BitsBytes, And;
      SizeMono(descr.type_, n, descr.maxSI0);
      NativeBits(descr.type_, n);
      var k := NativeSize(descr.type_, n);
      BytesSlice(pData[..], 0, k);
      assert State().mem[..8 * k] == State().mem[0..8 * k];
      assert pData[..][..k] == pData[..][0..k];
      BytesRoundTrip(pData[..][..k]);
    }

    /** CompleteRead. */
    method CompleteRead(inclSI0: bool, SI016Bits: bool, permissions: nat, beforeRead: SDOAbortCode, w: MemStreamWriter)
      returns (out: Outcome)
      requires Valid() && w.Valid() && w.buffer != pData
      modifies w, w.buffer
      ensures Valid() && w.Valid() && State() == old(State())
      ensures 8 * NativeSize(descr.type_, SI0) <= |State().mem|
      ensures (w.Abs(), out) ==
              ArrayCompleteRead(old(w.Abs()), descr, State(), inclSI0, SI016Bits, permissions, beforeRead, w.endian)
    {
      hide MemStreamWriter.Valid, MemStreamWriter.Abs;
      hide ToBits, BytesBits, BitsBytes, And, Put, Encoded, LeBytes, Ordered, Repeat, Const, Digits, LastBytes;
      ghost var mem := pData[..];
      FirstBytes(SI0);
      if inclSI0 && And(And(descr.attributesSI0, ATTR_ACCESS_RD), permissions) == 0 { return Done(AttemptToReadWrOnlyObject); }
      // nothing at all to emit
      if !inclSI0 && SI0 == 0 { return Done(OK); }
      var dataPureWriteOnly := And(descr.attributes, ATTR_ACCESS_RD) == 0;
      if SI0 != 0 && !dataPureWriteOnly && And(And(descr.attributes, ATTR_ACCESS_RD), permissions) == 0 {
        return Done(AttemptToReadWrOnlyObject);
      }
      if beforeRead != OK { return Done(beforeRead); }
      var st := Ok;
      if inclSI0 { st := WriteUint(w, SI0, SI0Size(SI016Bits)); }
      assert pData[..] == mem;
      if st != Ok { return Threw(st); }
      st := EmitData(w);
      assert pData[..] == mem;
      return if st == Ok then Done(OK) else Threw(st);
    }

    /** The data part of complete read. */
    method EmitData(w: MemStreamWriter) returns (st: Status)
      requires Valid() && w.Valid() && w.buffer != pData
      modifies w, w.buffer
      ensures Valid() && w.Valid() && State() == old(State())
      ensures 8 * NativeSize(descr.type_, SI0) <= |State().mem|
      ensures (w.Abs(), st) == Put(old(w.Abs()), !IsDataTypeBitBased(descr.type_), ArrayImage(descr, SI0, State().mem, w.endian))
    {
      hide MemStreamWriter.Valid, MemStreamWriter.Abs;
      hide ToBits, BytesBits, BitsBytes, And, Put, Encoded, Repeat, Const;
      ghost var mem := pData[..];
      FirstBytes(SI0);
      // SI0 only
      if SI0 == 0 {
        NoData(descr, w.endian, State().mem);
        NothingPut(w.Abs(), !IsDataTypeBitBased(descr.type_));
        return Ok;
      }
      if And(descr.attributes, ATTR_ACCESS_RD) == 0 {
        // pure write-only data reads as zero
        var nBits := BitLength(descr.type_) * SI0;
        if IsDataTypeBitBased(descr.type_) {
          st := FillBits(w, nBits, false);
        } else {
          SizeOf(descr.type_, SI0);
          RecordRoundTrip.ZeroBytes(nBits / 8);
          st := FillBytes(w, nBits / 8, 0);
        }
      } else {
        st := NativeDataToCANopenEncodedData(pData[..NativeSize(descr.type_, SI0)], descr.type_, SI0, true, w);
      }
      assert pData[..] == mem;
    }

    lemma NothingPut(w: Writer, align: bool)
      ensures Put(w, align, []) == (w, Ok)
    {
    }

    lemma NoData(a: ArrayDescr, e: Endian, mem: seq<bool>)
      requires ArrayType(a.type_)
      ensures NativeSize(a.type_, 0) == 0 && ArrayImage(a, 0, mem, e) == []
    {
      hide And;
      if !IsDataTypeBitBased(a.type_) { SizeOf(a.type_, 0); }
      EncodedSize(a.type_, 0, [], e);
    }

    /** CompleteWrite. */
    method CompleteWrite(inclSI0: bool, SI016Bits: bool, permissions: nat, beforeWrite: SDOAbortCode,
                         r: MemStreamReader, ernob: Expectation)
      returns (out: Outcome)
      requires Valid() && r.Valid()
      modifies r, this`SI0, pData
      ensures Valid() && r.Valid()
      ensures ArrayWriteResult(r.Abs(), State(), out) ==
              ArrayCompleteWrite(old(r.Abs()), descr, old(State()), inclSI0, SI016Bits, permissions, ernob, beforeWrite, r.endian)
    {
      hide MemStreamReader.Valid, MemStreamReader.Abs;
      hide BytesBits, BitsBytes, And, FetchBytes, IntValue, CheckSI0, WriteElements, ArrayType, ObjectARRAY.Valid, ObjectARRAY.State;
      ghost var mem := pData[..];
      Bounds();
      var SI0pureReadOnly := And(descr.attributesSI0, ATTR_ACCESS_WR) == 0;
      if inclSI0 && !SI0pureReadOnly && And(And(descr.attributesSI0, ATTR_ACCESS_WR), permissions) == 0 {
        return Done(AttemptToWriteRdOnlyObject);
      }
      var refused, newSI0;
      ghost var s0 := State();
      refused, out, newSI0 := ReceiveSI0(inclSI0, SI016Bits, SI0pureReadOnly, r);
      assert pData[..] == mem && State() == s0;
      if refused { return; }
      var dataPureReadOnly := And(descr.attributes, ATTR_ACCESS_WR) == 0;
      if newSI0 != 0 && !dataPureReadOnly && And(And(descr.attributes, ATTR_ACCESS_WR), permissions) == 0 {
        return Done(AttemptToWriteRdOnlyObject);
      }
      out := StoreData(newSI0, beforeWrite, r, ernob);
    }

    /** Reads SI0, if it is in the stream, and checks it. */
    method ReceiveSI0(inclSI0: bool, SI016Bits: bool, SI0pureReadOnly: bool, r: MemStreamReader)
      returns (refused: bool, out: Outcome, newSI0: nat)
      requires Valid() && r.Valid() && SI0pureReadOnly == (And(descr.attributesSI0, ATTR_ACCESS_WR) == 0)
      modifies r
      ensures r.Valid()
      ensures var f := FetchBytes(old(r.Abs()), if inclSI0 then SI0Size(SI016Bits) else 0);
              var n := if inclSI0 then IntValue(BitsBytes(f.val), r.endian) else SI0;
              var code := if inclSI0 then CheckSI0(descr, State(), n) else OK;
              && r.Abs() == f.rd && refused == (f.st != Ok || code != OK)
              && (f.st != Ok ==> out == StreamError(f.st))
              && (f.st == Ok && code != OK ==> out == Done(code))
              && (!refused ==> newSI0 == n && descr.minSI0 <= n <= descr.maxSI0)
    {
      hide MemStreamReader.Valid, MemStreamReader.Abs, ObjectARRAY.Valid;
      hide BytesBits, BitsBytes, And, FetchBytes, IntValue, CheckSI0, Digits, PassedBytes, Pow2;
      ghost var mem := pData[..];
      Bounds();
      refused, out, newSI0 := false, Done(OK), SI0;
      if inclSI0 {
        var st;
        st, newSI0 := ReadUint(r, SI0Size(SI016Bits));
        assert pData[..] == mem;
        if st != Ok { return true, StreamError(st), newSI0; }
        var code := CheckNewSI0(newSI0, SI0pureReadOnly);
        if code != OK { return true, Done(code), newSI0; }
      } else {
        NoBytesFetched(r.Abs());
      }
    }

    lemma Bounds()
      requires Valid()
      ensures descr.minSI0 <= SI0 <= descr.maxSI0 && ArrayType(descr.type_) && State().si0 == SI0
    {
      hide BytesBits, And, NativeSize, ArrayType;
    }

    /** Whether SI0 of the stream is acceptable. */
    method CheckNewSI0(newSI0: nat, SI0pureReadOnly: bool) returns (code: SDOAbortCode)
      requires Valid() && SI0pureReadOnly == (And(descr.attributesSI0, ATTR_ACCESS_WR) == 0)
      ensures code == CheckSI0(descr, State(), newSI0)
      ensures code == OK ==> descr.minSI0 <= newSI0 <= descr.maxSI0
    {
      hide And, BytesBits;
      if SI0pureReadOnly {
        // the new value must match the current one
        if newSI0 != SI0 { return UnsupportedAccessToObject; }
      } else {
        if newSI0 < descr.minSI0 { return ValueTooLow; }
        if newSI0 > descr.maxSI0 { return ValueTooHigh; }
      }
      return OK;
    }

    /** The data part of complete write; sets SI0, too. */
    method StoreData(newSI0: nat, beforeWrite: SDOAbortCode, r: MemStreamReader, ernob: Expectation) returns (out: Outcome)
      requires Valid() && r.Valid() && descr.minSI0 <= newSI0 <= descr.maxSI0
      modifies r, this`SI0, pData
      ensures Valid() && r.Valid()
      ensures ArrayWriteResult(r.Abs(), State(), out) ==
              WriteElements(old(r.Abs()), descr, old(State()), newSI0, ernob, beforeWrite, r.endian)
    {
      hide MemStreamReader.Valid, MemStreamReader.Abs;
      hide ToBits, FromBits, BytesBits, BitsBytes, And, Get, Splice, Decoded, PackBits, DataBits;
      ghost var mem, s0 := pData[..], State();
      ghost var g := Get(r.Abs(), !IsDataTypeBitBased(descr.type_), newSI0 * BitLength(descr.type_));
      var native, st := [], Ok;
      if newSI0 != 0 {
        st, native := CANopenEncodedDataToNativeData(r, descr.type_, newSI0, true);
      } else {
        GetNone(r.Abs(), !IsDataTypeBitBased(descr.type_));
      }
      if st == Ok { st := r.EnsureAllDataConsumed(ernob); }
      assert pData[..] == mem;
      if st != Ok { return StreamError(st); }
      if beforeWrite != OK { return Done(beforeWrite); }
      SI0 := newSI0;
      assert pData[..] == mem;
      FirstBytes(newSI0);
      if SI0 != 0 && And(descr.attributes, ATTR_ACCESS_WR) != 0 {
        CopyData(native, g.val, r.endian);
      } else if SI0 == 0 {
        StoredNothing(descr, s0.mem, g.val, r.endian);
      }
      return Done(OK);
    }

    lemma GetNone(r: Reader, align: bool)
      ensures Get(r, align, 0) == Fetched(r, Ok, [])
    {
    }

    lemma StoredNothing(a: ArrayDescr, mem: seq<bool>, v: seq<bool>, e: Endian)
      requires ArrayType(a.type_) && v == []
      ensures ArrayStored(a, 0, mem, v, e) == mem
    {
      hide And, BytesBits;
      if !IsDataTypeBitBased(a.type_) { SizeOf(a.type_, 0); }
    }

    /** Copies whole bytes, then the remaining bits of packed data. */
    method CopyData(native: seq<byte>, ghost v: seq<bool>, ghost e: Endian)
      requires Valid() && SI0 != 0 && |v| == SI0 * BitLength(descr.type_) && And(descr.attributes, ATTR_ACCESS_WR) != 0
      requires native == Decoded(descr.type_, SI0, v, e)
      modifies pData
      ensures Valid() && State() == ArrayState(SI0, ArrayStored(descr, SI0, old(State()).mem, v, e))
    {
      hide ToBits, FromBits, BytesBits, And, Splice, Decoded, DataBits, ArrayStored, IsArrayType;
      FirstBytes(SI0);
      ghost var m0 := State().mem;
      NativeBits(descr.type_, SI0);
      var nBits := if IsNativeDataStuffed(descr.type_) then BitLength(descr.type_) * SI0 else NativeBitLength(descr.type_) * SI0;
      DataBitsIs(descr.type_, SI0);
      assert nBits == DataBits(descr.type_, SI0);
      var nBytes := nBits / 8;
      nBits := nBits % 8;
      CopyTo(pData, 0, native[..nBytes]);
      // a partial byte at the end
      if nBits != 0 { CopyLowBits(nBytes, nBits, native[nBytes]); }
      CopiedAll(descr, SI0, m0, native, nBytes, nBits, v, e);
    }

    /** Replaces the n low bits of byte p. */
    method CopyLowBits(p: nat, n: nat, data: byte)
      requires p < pData.Length && 1 <= n <= 7
      modifies pData
      ensures BytesBits(pData[..]) == Splice(BytesBits(old(pData[..])), 8 * p, ToBits(data, n))
    {
      hide ToBits, FromBits, BytesBits, And, Splice;
      ghost var mem: seq<byte> := pData[..];
      ReplacedInByte(mem, p, 0, n, data);
      ShlZero(Mask(n));
      ShlZero(And(data, Mask(n)));
      var b: byte := Or(And(pData[p], Not(Mask(n), 8)), And(data, Mask(n)));
      pData[p] := b;
      assert pData[..] == mem[p := b];
    }

    lemma DataBitsIs(t: DataType, n: nat)
      ensures IsNativeDataStuffed(t) ==> DataBits(t, n) == BitLength(t) * n
    {
    }

    lemma ShlZero(v: nat)
      ensures Shl(v, 0) == v
    {
    }

    lemma CopiedAll(a: ArrayDescr, n: nat, mem: seq<bool>, native: seq<byte>, nBytes: nat, nBits: nat, v: seq<bool>, e: Endian)
      requires ArrayType(a.type_) && |v| == n * BitLength(a.type_) && native == Decoded(a.type_, n, v, e)
      requires And(a.attributes, ATTR_ACCESS_WR) != 0 && DataBits(a.type_, n) <= |mem|
      requires nBytes == DataBits(a.type_, n) / 8 && nBits == DataBits(a.type_, n) % 8
      ensures nBytes <= |native| && (nBits != 0 ==> nBytes < |native|)
      ensures var m1 := Splice(mem, 0, BytesBits(native[..nBytes]));
              ArrayStored(a, n, mem, v, e) == if nBits == 0 then m1 else Splice(m1, 8 * nBytes, ToBits(native[nBytes], nBits))
    {
      hide ToBits, FromBits, BytesBits, And, PackBits, Decoded, NativeSize, BitLength, Splice;
      NativeBits(a.type_, n);
      if IsNativeDataStuffed(a.type_) {
        assert native == PackBits(v) by { StuffedNative(a.type_, n, v, e); }
        CopiedPacked(mem, native, nBytes, nBits, v);
      } else {
        assert nBits == 0 && native[..nBytes] == native;
      }
    }

    lemma CopiedPacked(mem: seq<bool>, native: seq<byte>, nBytes: nat, nBits: nat, v: seq<bool>)
      requires native == PackBits(v) && |v| <= |mem| && nBytes == |v| / 8 && nBits == |v| % 8
      ensures nBytes <= |native| && (nBits != 0 ==> nBytes < |native|)
      ensures var m1 := Splice(mem, 0, BytesBits(native[..nBytes]));
              Splice(mem, 0, v) == if nBits == 0 then m1 else Splice(m1, 8 * nBytes, ToBits(native[nBytes], nBits))
    {
      hide ToBits, FromBits, BytesBits, PackBits, Splice, Aligned;
      PackedBits(v);
      AlignedStart(v);
      PackedParts(native, v, nBytes, nBits);
      if nBits == 0 {
        assert v[..8 * nBytes] == v;
      } else {
        assert v == v[..8 * nBytes] + v[8 * nBytes..];
        SpliceTwice(mem, v[..8 * nBytes], v[8 * nBytes..]);
      }
    }

    lemma SpliceTwice(mem: seq<bool>, a: seq<bool>, b: seq<bool>)
      requires |a| + |b| <= |mem|
      ensures Splice(Splice(mem, 0, a), |a|, b) == Splice(mem, 0, a + b)
    {
    }

    lemma StuffedNative(t: DataType, n: nat, v: seq<bool>, e: Endian)
      requires ArrayType(t) && IsNativeDataStuffed(t) && |v| == n * BitLength(t)
      ensures Decoded(t, n, v, e) == PackBits(v)
    {
      hide PackBits;
    }

    lemma AlignedStart(v: seq<bool>)
      ensures v <= Aligned(v)
    {
      assert Aligned(v)[..|v|] == v;
    }

    lemma PackedParts(native: seq<byte>, v: seq<bool>, nBytes: nat, nBits: nat)
      requires v <= BytesBits(native) && nBytes == |v| / 8 && nBits == |v| % 8
      ensures nBytes <= |native| && BytesBits(native[..nBytes]) == v[..8 * nBytes]
      ensures nBits != 0 ==> nBytes < |native| && ToBits(native[nBytes], nBits) == v[8 * nBytes..]
    {
      hide ToBits, BytesBits;
      BytesSlice(native, 0, nBytes);
      assert native[0..nBytes] == native[..nBytes];
      if nBits != 0 {
        ByteAt(native, nBytes);
        ToBitsPrefix(native[nBytes], 8, nBits);
        var b := BytesBits(native);
        assert b[8 * nBytes..8 * nBytes + 8][..nBits] == v[8 * nBytes..];
      }
    }
  }
}
