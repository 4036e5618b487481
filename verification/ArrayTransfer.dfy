/**
 Complete read of one ARRAY object and complete write of the result to another one with the same description.
 */
module ArrayTransfer {
  import opened UInt
  import opened StreamSpec
  import opened MemStreamReaders
  import opened StreamReaderBase
  import opened DataTypes
  import opened ObjectCodec
  import opened RecordSpec
  import opened ObjectRecords
  import opened ObjectArrays
  import opened RecordTheorems
  import RecordRoundTrip

  /** The native bits that arrive: zeros for write-only data, packed data as it is, all other data as the codec normalises
      it. */
  function Arriving(a: ArrayDescr, n: nat, mem: seq<bool>): (r: seq<bool>)
    requires ArrayType(a.type_) && 8 * NativeSize(a.type_, n) <= |mem|
  {
    var t := a.type_;
    if And(a.attributes, ATTR_ACCESS_RD) == 0 then Const(DataBits(t, n), false)
    else if IsNativeDataStuffed(t) then Beginning(mem, n * BitLength(t))
    else BytesBits(Normalised(t, n, NativeOf(t, n, mem)))
  }

  function Beginning(s: seq<bool>, n: nat): seq<bool> { if n <= |s| then s[..n] else s }

  /** The permissions suffice for SI0, if it is part of the transfer, and for the data, if there are any to be read. */
  ghost predicate MayRead(a: ArrayDescr, n: nat, inclSI0: bool, permissions: nat)
  {
    && (inclSI0 ==> And(And(a.attributesSI0, ATTR_ACCESS_RD), permissions) != 0)
    && (n == 0 || And(a.attributes, ATTR_ACCESS_RD) == 0 || And(And(a.attributes, ATTR_ACCESS_RD), permissions) != 0)
  }

  /** The same for what is not read-only. */
  ghost predicate MayWrite(a: ArrayDescr, n: nat, inclSI0: bool, permissions: nat)
  {
    && (inclSI0 && And(a.attributesSI0, ATTR_ACCESS_WR) != 0 ==> And(And(a.attributesSI0, ATTR_ACCESS_WR), permissions) != 0)
    && (n == 0 || And(a.attributes, ATTR_ACCESS_WR) == 0 || And(And(a.attributes, ATTR_ACCESS_WR), permissions) != 0)
  }

  /** What complete read emits in an empty stream: SI0 and the elements, as many bits as GetObjectStreamSize says. */
  lemma CompleteReadOfArray(a: ArrayDescr, s: ArrayState, inclSI0: bool, SI016Bits: bool, permissions: nat, cap: nat, e: Endian)
    requires ValidState(a, s) && MayRead(a, s.si0, inclSI0, permissions)
    ensures 8 * NativeSize(a.type_, s.si0) <= |s.mem|
    ensures var size := SI0Bits(inclSI0, SI016Bits) + s.si0 * BitLength(a.type_);
            var bits := Head([], s.si0, inclSI0, SI016Bits, e) + ArrayImage(a, s.si0, s.mem, e);
            && |bits| == size
            && ArrayCompleteRead(Writing([], cap), a, s, inclSI0, SI016Bits, permissions, OK, e) ==
               if size <= cap then (Writing(bits, cap), Done(OK)) else (WriteFailed, Threw(FullError))
  {
    hide Encoded, NativeOf, And, NativeSize, BitLength, Put, Extended, BytesBits, LeBytes, Ordered, Const, ArrayImage;
    SizeMono(a.type_, s.si0, a.maxSI0);
    var h := Head([], s.si0, inclSI0, SI016Bits, e);
    var img := ArrayImage(a, s.si0, s.mem, e);
    HeadSize([], s.si0, inclSI0, SI016Bits, e);
    ImageLength(a, s.si0, s.mem, e);
    PutIs([], cap, true, BytesBits(Ordered(LeBytes(s.si0, SI0Size(SI016Bits)), e)));
    if !inclSI0 && s.si0 == 0 { assert h + img == []; }
    if |h| <= cap {
      PutIs(h, cap, !IsDataTypeBitBased(a.type_), img);
      Appended(h, !IsDataTypeBitBased(a.type_), img);
    }
  }

  lemma ImageLength(a: ArrayDescr, n: nat, mem: seq<bool>, e: Endian)
    requires ArrayType(a.type_) && 8 * NativeSize(a.type_, n) <= |mem|
    ensures |ArrayImage(a, n, mem, e)| == n * BitLength(a.type_)
  {
    hide Encoded, And, BitsBytes, BitLength;
    EncodedSize(a.type_, n, NativeOf(a.type_, n, mem), e);
  }

  lemma Appended(out: seq<bool>, align: bool, bits: seq<bool>)
    requires |out| % 8 == 0
    ensures Extended(out, align, bits) == out + bits
  {
    hide Const, Pad;
    AlignedId(out);
    assert out + [] == out;
  }

  /** The number of elements that complete write expects: SI0 of the stream, or the own one. */
  function Expected(bits: seq<bool>, pos: nat, s: ArrayState, inclSI0: bool, SI016Bits: bool, e: Endian): nat
  {
    var p := pos + SI0Bits(inclSI0, SI016Bits);
    if inclSI0 && p <= |bits| then IntValue(BitsBytes(bits[pos..p]), e) else s.si0
  }

  function ElementBits(a: ArrayDescr, n: nat): nat { n * BitLength(a.type_) }

  /** What becomes of a complete write whose data start at p and would end at `need`. */
  function BySize(bits: seq<bool>, p: nat, need: nat, ernob: Expectation): Outcome
  {
    if |bits| < p || |bits| < need then Done(DataTypeMismatchTooSmall)
    else if Consumed(Reading(bits, need), ernob) == Ok then Done(OK)
    else Done(DataTypeMismatchTooLong)
  }

  /** With sufficient permissions, complete write from a byte boundary refuses an SI0 that is not acceptable, and else
      reports exactly whether the stream is too short or too long; only success changes the object. */
  lemma CompleteWriteOutcomeOfArray(bits: seq<bool>, pos: nat, a: ArrayDescr, s: ArrayState, inclSI0: bool, SI016Bits: bool,
                                    permissions: nat, ernob: Expectation, e: Endian)
    requires ValidState(a, s) && pos % 8 == 0 && pos <= |bits|
    requires MayWrite(a, Expected(bits, pos, s, inclSI0, SI016Bits, e), inclSI0, permissions)
    ensures var p, n := pos + SI0Bits(inclSI0, SI016Bits), Expected(bits, pos, s, inclSI0, SI016Bits, e);
            var t := ArrayCompleteWrite(Reading(bits, pos), a, s, inclSI0, SI016Bits, permissions, ernob, OK, e);
            && t.out == (if inclSI0 && p <= |bits| && CheckSI0(a, s, n) != OK then Done(CheckSI0(a, s, n))
                         else BySize(bits, p, p + ElementBits(a, n), ernob))
            && (t.out == Done(OK) ==> t.s.si0 == n) && (t.out != Done(OK) ==> t.s == s)
  {
    hide And, BitLength, BitsBytes, IntValue, ArrayStored, FetchBytes, Get, Consumed, NativeSize, IsDataTypeBitBased,
         IsArrayType, ElementBits, CheckSI0;
    var p := pos + SI0Bits(inclSI0, SI016Bits);
    FetchAt(bits, pos, if inclSI0 then SI0Size(SI016Bits) else 0);
    if p <= |bits| {
      var n := Expected(bits, pos, s, inclSI0, SI016Bits, e);
      GetAt(bits, p, !IsDataTypeBitBased(a.type_), ElementBits(a, n));
      ElementBitsIs(a, n);
      if p + ElementBits(a, n) <= |bits| { ConsumedOrNot(bits, p + ElementBits(a, n), ernob); }
    }
  }

  lemma ElementBitsIs(a: ArrayDescr, n: nat)
    ensures ElementBits(a, n) == n * BitLength(a.type_)
  {
  }

  lemma ConsumedOrNot(bits: seq<bool>, pos: nat, ernob: Expectation)
    requires pos <= |bits|
    ensures Consumed(Reading(bits, pos), ernob) in {Ok, RemainingBitsError}
  {
  }

  /** The transfer: with SI0 or without, between arrays with the same description; the elements and SI0 arrive, what is
      read-only or lies above the last element stays. Only a read-only SI0 with another value is refused. */
  lemma CompleteTransferOfArray(a: ArrayDescr, sA: ArrayState, sB: ArrayState, inclSI0: bool, SI016Bits: bool,
                                rdPermissions: nat, wrPermissions: nat, cap: nat, e: Endian)
    requires ValidState(a, sA) && ValidState(a, sB) && |sA.mem| == |sB.mem| && (!inclSI0 ==> sA.si0 == sB.si0)
    requires MayRead(a, sA.si0, inclSI0, rdPermissions) && MayWrite(a, sA.si0, inclSI0, wrPermissions)
    requires SI0Bits(inclSI0, SI016Bits) + sA.si0 * BitLength(a.type_) <= cap
    ensures 8 * NativeSize(a.type_, sA.si0) <= |sA.mem|
    ensures var (w, o) := ArrayCompleteRead(Writing([], cap), a, sA, inclSI0, SI016Bits, rdPermissions, OK, e);
            && o == Done(OK) && w.Writing?
            && var t := ArrayCompleteWrite(Reading(Aligned(w.out), 0), a, sB, inclSI0, SI016Bits, wrPermissions, SevenOrLess, OK, e);
               if And(a.attributesSI0, 0x38) == 0 && sA.si0 != sB.si0 then
                 t.out == Done(UnsupportedAccessToObject) && t.s == sB
               else
                 && t.out == Done(OK) && t.s.si0 == sA.si0
                 && (And(a.attributes, 0x38) == 0 ==> t.s.mem == sB.mem)
                 && (And(a.attributes, 0x38) != 0 ==> ElementsArrive(a, sA.si0, sA.mem, sB.mem, t.s.mem))
  {
    hide Encoded, NativeOf, And, NativeSize, BitLength, BytesBits, BitsBytes, LeBytes, Ordered, Extended, Aligned,
         IntValue, Get, FetchBytes, Arriving, ArrayCompleteRead, ArrayImage, ArrayStored, Head, ElementsArrive;
    SizeMono(a.type_, sA.si0, a.maxSI0);
    CompleteReadOfArray(a, sA, inclSI0, SI016Bits, rdPermissions, cap, e);
    var h, img := Head([], sA.si0, inclSI0, SI016Bits, e), ArrayImage(a, sA.si0, sA.mem, e);
    var bits := Aligned(h + img);
    ImageLength(a, sA.si0, sA.mem, e);
    AlignedStarts(h + img);
    HeadSize([], sA.si0, inclSI0, SI016Bits, e);
    assert h <= bits;
    HeadBack(bits, sA.si0, inclSI0, SI016Bits, e);
    Appended(h, !IsDataTypeBitBased(a.type_), img);
    GetBack(bits, h, !IsDataTypeBitBased(a.type_), img);
    StoredImage(a, sA.si0, sA.mem, sB.mem, e);
  }

  /** Native bits of n elements. */
  function ElementsEnd(t: DataType, n: nat): nat
  {
    if t.BitN? || t.BooleanNativeBit1? then n * PackedBitsOf(t) else 8 * (n * ElementBytes(t))
  }

  /** What B's memory is when n elements of A have arrived: zeros for write-only data, the same bits for packed data, and
      for all other types what a trip through the stream makes of the native data; nothing above the last element changes. */
  ghost predicate ElementsArrive(a: ArrayDescr, n: nat, sent: seq<bool>, before: seq<bool>, after: seq<bool>)
    requires 8 * NativeSize(a.type_, n) <= |sent|
  {
    && |after| == |before| == |sent| && ElementsEnd(a.type_, n) <= |sent|
    && (forall j :: ElementsEnd(a.type_, n) <= j < |after| ==> after[j] == before[j])
    && (And(a.attributes, 0x407) == 0 ==> forall j :: 0 <= j < ElementsEnd(a.type_, n) ==> !after[j])
    && (And(a.attributes, 0x407) != 0 ==>
          if a.type_.BitN? || a.type_.BooleanNativeBit1? then
            forall j :: 0 <= j < ElementsEnd(a.type_, n) ==> after[j] == sent[j]
          else
            Arrived(a.type_, n, NativeOf(a.type_, n, sent), NativeOf(a.type_, n, after)))
  }

  lemma ElementsEndIs(t: DataType, n: nat)
    requires ArrayType(t)
    ensures ElementsEnd(t, n) == DataBits(t, n)
  {
    if !IsDataTypeBitBased(t) { SizeOf(t, n); }
  }

  lemma ArrivingIs(a: ArrayDescr, n: nat, sent: seq<bool>, before: seq<bool>, after: seq<bool>)
    requires ArrayType(a.type_) && 8 * NativeSize(a.type_, n) <= |sent| == |before|
    requires WithBeginning(after, before, Arriving(a, n, sent))
    ensures ElementsArrive(a, n, sent, before, after)
  {
    hide And, BytesBits, BitsBytes, Normalised, Arrived, BitLength, NativeSize, ElementsEnd, IsDataTypeBitBased;
    var t := a.type_;
    ElementsEndIs(t, n);
    NativeBits(t, n);
    if And(a.attributes, ATTR_ACCESS_RD) != 0 && !IsNativeDataStuffed(t) {
      var native := Normalised(t, n, NativeOf(t, n, sent));
      NormalisedArrives(t, n, NativeOf(t, n, sent));
      BytesRoundTrip(native);
      assert |native| == NativeSize(t, n) by { RecordRoundTrip.NormalisedSize(t, n, NativeOf(t, n, sent)); }
      assert after[..8 * NativeSize(t, n)] == BytesBits(native);
    }
  }

  /** mem is `before` with its beginning replaced. */
  predicate WithBeginning(mem: seq<bool>, before: seq<bool>, beginning: seq<bool>)
  {
    |mem| == |before| && |beginning| <= |mem| && mem == beginning + before[|beginning|..]
  }

  /** Storing what has been emitted. */
  lemma StoredImage(a: ArrayDescr, n: nat, memA: seq<bool>, memB: seq<bool>, e: Endian)
    requires ArrayType(a.type_) && 8 * NativeSize(a.type_, n) <= |memA| == |memB|
    ensures |ArrayImage(a, n, memA, e)| == n * BitLength(a.type_)
    ensures var mem := ArrayStored(a, n, memB, ArrayImage(a, n, memA, e), e);
            if And(a.attributes, 0x38) == 0 then mem == memB else ElementsArrive(a, n, memA, memB, mem)
  {
    hide And, ArrayStored, WithBeginning, Arriving, ElementsArrive, BitLength, NativeSize;
    StoredBeginning(a, n, memA, memB, e);
    if And(a.attributes, ATTR_ACCESS_WR) != 0 { ArrivingIs(a, n, memA, memB, ArrayStored(a, n, memB, ArrayImage(a, n, memA, e), e)); }
  }

  lemma StoredBeginning(a: ArrayDescr, n: nat, memA: seq<bool>, memB: seq<bool>, e: Endian)
    requires ArrayType(a.type_) && 8 * NativeSize(a.type_, n) <= |memA| == |memB|
    ensures |ArrayImage(a, n, memA, e)| == n * BitLength(a.type_)
    ensures var mem := ArrayStored(a, n, memB, ArrayImage(a, n, memA, e), e);
            if And(a.attributes, ATTR_ACCESS_WR) == 0 then mem == memB else WithBeginning(mem, memB, Arriving(a, n, memA))
  {
    hide And, BytesBits, BitsBytes, Swapped, BitLength, NativeBitLength, BoolBits, ZeroFilled, PackBits, Decoded, Encoded,
         Normalised, Const;
    ImageLength(a, n, memA, e);
    var t, img := a.type_, ArrayImage(a, n, memA, e);
    NativeBits(t, n);
    if And(a.attributes, ATTR_ACCESS_RD) == 0 {
      if !IsNativeDataStuffed(t) {
        RecordRoundTrip.DecodedZeros(t, n, e);
        RecordRoundTrip.ZeroBytes(NativeSize(t, n));
      }
    } else if IsNativeDataStuffed(t) {
      PackedImage(t, n, memA, e);
    } else {
      DecodeEncoded(t, n, NativeOf(t, n, memA), e);
    }
  }

  lemma PackedImage(t: DataType, n: nat, mem: seq<bool>, e: Endian)
    requires ArrayType(t) && IsNativeDataStuffed(t) && 8 * NativeSize(t, n) <= |mem|
    ensures n * BitLength(t) <= |mem| && Encoded(t, n, NativeOf(t, n, mem), e) == mem[..n * BitLength(t)]
  {
    hide BytesBits, BitsBytes;
    var k := n * BitLength(t);
    assert k <= 8 * NativeSize(t, n);
    BitsRoundTrip(mem[..8 * NativeSize(t, n)]);
    assert mem[..8 * NativeSize(t, n)][..k] == mem[..k];
  }
}
