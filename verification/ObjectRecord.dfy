/**
 RECORD object of the object dictionary (src/cood/ObjectRECORD.cpp). The native structure is an array of bytes; mutex
 and callbacks are reduced to whether a mutex was given and to the abort code a callback returns.
 */
module ObjectRecords {
  import opened UInt
  import opened StreamSpec
  import opened MemStreamWriters
  import opened MemStreamReaders
  import opened StreamWriterBase
  import opened StreamReaderBase
  import opened DataTypes
  import opened ObjectCodec
  import opened BitMemory
  import opened RecordSpec
  import opened RecordRoundTrip

  datatype SDOAbortCode =
    | OK
    | AttemptToReadWrOnlyObject
    | AttemptToWriteRdOnlyObject
    | SubindexDoesNotExist
    | UnsupportedAccessToObject
    | DataTypeMismatchTooSmall
    | DataTypeMismatchTooLong
    | ValueTooLow
    | ValueTooHigh
    | OtherCode(code: nat)

  /** An abort code that is returned, or an exception of a stream that passes through. */
  datatype Outcome = Done(code: SDOAbortCode) | Threw(st: Status)

  /** How complete write and write report a stream error. */
  function StreamError(st: Status): Outcome
  {
    match st
    case EmptyError => Done(DataTypeMismatchTooSmall)
    case RemainingBitsError => Done(DataTypeMismatchTooLong)
    case _ => Threw(st)
  }

  datatype TableCheck = Accepted(streamSizeInBit: nat) | Rejected | TypeNotSupported

  // ---------------------------------------------------------------- specification

  predicate ReadAllowed(ds: seq<SubIdxDescr>, permissions: nat)
  {
    forall i :: 0 <= i < |ds| && !IsEmpty(ds[i]) && Readable(ds[i]) ==>
      And(And(ds[i].attributes, ATTR_ACCESS_RD), permissions) != 0
  }

  predicate WriteAllowed(ds: seq<SubIdxDescr>, permissions: nat)
  {
    forall i :: 0 <= i < |ds| && !IsEmpty(ds[i]) && Writeable(ds[i]) ==>
      And(And(ds[i].attributes, ATTR_ACCESS_WR), permissions) != 0
  }

  function SI0Size(SI016Bits: bool): nat { if SI016Bits then 2 else 1 }

  function CompleteReadSpec(w: Writer, ds: seq<SubIdxDescr>, mem: seq<bool>, inclSI0: bool, SI016Bits: bool,
                            permissions: nat, beforeRead: SDOAbortCode, e: Endian): (Writer, Outcome)
    requires AllFit(ds, |mem|)
  {
    if inclSI0 && And(permissions, ATTR_ACCESS_RD) == 0 then (w, Done(AttemptToReadWrOnlyObject))
    else if !ReadAllowed(ds, permissions) then (w, Done(AttemptToReadWrOnlyObject))
    else if beforeRead != OK then (w, Done(beforeRead))
    else
      var (w1, st1) := if inclSI0 then PushBytes(w, Ordered(LeBytes(|ds|, SI0Size(SI016Bits)), e)) else (w, Ok);
      if st1 != Ok then (w1, Threw(st1)) else
        var (w2, st2) := PutAll(w1, ds, mem, e);
        (w2, if st2 == Ok then Done(OK) else Threw(st2))
  }

  datatype WriteResult = WriteResult(rd: Reader, mem: seq<bool>, out: Outcome)

  function CompleteWriteSpec(r: Reader, ds: seq<SubIdxDescr>, mem: seq<bool>, inclSI0: bool, SI016Bits: bool,
                             permissions: nat, ernob: Expectation, beforeWrite: SDOAbortCode, e: Endian): WriteResult
    requires AllFit(ds, |mem|)
  {
    if !WriteAllowed(ds, permissions) then WriteResult(r, mem, Done(AttemptToWriteRdOnlyObject)) else
      var f := FetchBytes(r, if inclSI0 then SI0Size(SI016Bits) else 0);
      if f.st != Ok then WriteResult(f.rd, mem, StreamError(f.st))
      else if inclSI0 && IntValue(BitsBytes(f.val), e) != |ds| then WriteResult(f.rd, mem, Done(UnsupportedAccessToObject))
      else WriteDataSpec(f.rd, ds, mem, ernob, beforeWrite, e)
  }

  /** Complete write behind SI0. */
  function WriteDataSpec(r: Reader, ds: seq<SubIdxDescr>, mem: seq<bool>, ernob: Expectation, beforeWrite: SDOAbortCode,
                         e: Endian): WriteResult
    requires AllFit(ds, |mem|)
  {
    var c := GetAll(r, ds, Const(|mem|, false), e);
    var st := if c.st != Ok then c.st else Consumed(c.rd, ernob);
    if st != Ok then WriteResult(c.rd, mem, StreamError(st))
    else if beforeWrite != OK then WriteResult(c.rd, mem, Done(beforeWrite))
    else WriteResult(c.rd, Updated(mem, ds, c.temp), Done(OK))
  }

  // ---------------------------------------------------------------- bits and bytes of a structure

  /** WriteBits. */
  method WriteBits(dest: array<byte>, d: SubIdxDescr, newBits: byte)
    requires IsNormal(d) && IsNativeDataStuffed(d.type_) && Fits(d, 8 * dest.Length) && d.bitOffset <= 7
    modifies dest
    ensures BytesBits(dest[..]) == Splice(BytesBits(old(dest[..])), Lo(d), ToBits(newBits, BitLength(d.type_)))
  {
    hide ToBits, BytesBits, Splice, Low, Shr, Or, And, Not, Shl, Pow2;
    var p, nBits := d.byteOffset, BitLength(d.type_);
    var mask := Mask(nBits);
    ghost var mem: seq<byte> := dest[..];
    if d.bitOffset + nBits > 8 {
      ReplacedInWord(mem, p, d.bitOffset, nBits, newBits);
      var currData := Or(dest[p], Shl(dest[p + 1], 8));
      currData := And(currData, Not(Shl(mask, d.bitOffset), 16));
      currData := Or(currData, Shl(And(newBits, mask), d.bitOffset));
      var lo: byte, hi: byte := Low(currData, 8), Low(Shr(currData, 8), 8);
      dest[p] := lo;
      dest[p + 1] := hi;
      assert dest[..] == mem[p := lo][p + 1 := hi];
    } else {
      ReplacedInByte(mem, p, d.bitOffset, nBits, newBits);
      var currData := And(dest[p] as nat, Not(Shl(mask, d.bitOffset), 8));
      var b: byte := Or(currData, Shl(And(newBits, mask), d.bitOffset));
      dest[p] := b;
      assert dest[..] == mem[p := b];
    }
  }

  lemma LowPrefix(v: nat, n: nat)
    requires n <= 8
    ensures Low(v, 8) < 256 && ToBits(Low(v, 8), n) == ToBits(v, n)
  {
    hide ToBits, Low;
    assert Pow2(8) == 256;
    ToBitsLow(v, 8, 0);
    assert ToBits(v, 8) + [] == ToBits(v, 8);
    ToBitsPrefix(v, 8, n);
    ToBitsPrefix(Low(v, 8), 8, n);
  }

  /** ReadBits. */
  method ReadBits(src: array<byte>, d: SubIdxDescr) returns (v: byte)
    requires IsNormal(d) && IsNativeDataStuffed(d.type_) && Fits(d, 8 * src.Length) && d.bitOffset <= 7
    ensures ToBits(v, BitLength(d.type_)) == Cell(d, BytesBits(src[..]))
  {
    hide ToBits, BytesBits, Low, Shr, Or, Shl;
    var p, nBits := d.byteOffset, BitLength(d.type_);
    var bits: nat := src[p];
    if d.bitOffset + nBits > 8 {
      bits := Or(bits, Shl(src[p + 1], 8));
      BitsInWord(src[..], p, d.bitOffset, nBits);
    } else {
      BitsInByte(src[..], p, d.bitOffset, nBits);
    }
    bits := Shr(bits, d.bitOffset);
    LowPrefix(bits, nBits);
    v := Low(bits, 8);
  }

  /** memcpy(dest + p, data, size). */
  method CopyTo(dest: array<byte>, p: nat, data: seq<byte>)
    requires p + |data| <= dest.Length
    modifies dest
    ensures BytesBits(dest[..]) == Splice(BytesBits(old(dest[..])), 8 * p, BytesBits(data))
  {
    hide BytesBits;
    ghost var mem: seq<byte> := dest[..];
    forall i | 0 <= i < |data| { dest[p + i] := data[i]; }
    assert dest[..] == Splice(mem, p, data);
    SpliceBytes(mem, p, data);
  }

  lemma PackedByte(s: seq<bool>, native: seq<byte>)
    requires 1 <= |s| <= 8 && native == PackBits(s)
    ensures |native| == 1 && ToBits(native[0], |s|) == s
  {
    hide ToBits, FromBits;
    ToFromBits(s);
  }

  // ---------------------------------------------------------------- the constructor's checks

  lemma GapStep(ds: seq<SubIdxDescr>, i: nat)
    requires i < |ds|
    ensures EndsWithGap(ds[..i + 1]) ==
            if IsEmpty(ds[i]) && ds[i].type_.NullType? then EndsWithGap(ds[..i]) else IsGap(ds[i])
    ensures StreamBits(0, ds[..i + 1]) == Behind(StreamBits(0, ds[..i]), ds[i])
  {
    hide Behind;
    assert ds[..i + 1][..i] == ds[..i];
    assert ds[..i + 1] == ds[..i] + [ds[i]];
    StreamBitsAppend(0, ds[..i], ds[i]);
  }

  datatype EntryCheck = EntryOk(prevSIwasGap: bool, streamSizeInBit: nat) | EntryRejected | EntryTypeNotSupported

  lemma Lengths(t: DataType)
    ensures t.Unsupported? ==> BitLength(t) == 0
    ensures !t.NullType? && !t.Unsupported? ==> BitLength(t) != 0 && NativeBitLength(t) != 0
    ensures t.NullType? ==> BitLength(t) == 1 && IsDataTypeBitBased(t)
  {
  }

  /** The padding in front of an entry. */
  lemma EntryBits(d: SubIdxDescr, size: nat)
    ensures AlignUp(size) == size + (8 - size % 8) % 8 && (size % 8 == 0 <==> (8 - size % 8) % 8 == 0)
    ensures d.nElements * BitLength(d.type_) == BitLength(d.type_) * d.nElements
  {
  }

  /** What the constructor does with one entry, given whether the last entry was a gap and the stream size so far. */
  method CheckEntry(d: SubIdxDescr, structSize: nat, prevSIwasGap: bool, streamSizeInBit: nat) returns (r: EntryCheck)
    ensures r.EntryOk? <==>
              && WellDescribed(d, structSize)
              && (prevSIwasGap ==> !IsGap(d) && (IsNormal(d) && !IsDataTypeBitBased(d.type_) ==> streamSizeInBit % 8 == 0))
    ensures r.EntryOk? ==>
              && r.prevSIwasGap == (if IsEmpty(d) && d.type_.NullType? then prevSIwasGap else IsGap(d))
              && r.streamSizeInBit == Behind(streamSizeInBit, d)
    ensures r.EntryTypeNotSupported? <==> d.hasName && d.type_.Unsupported?
    ensures d.type_.Unsupported? ==> !WellDescribed(d, structSize)
  {
    hide And, BitLength, NativeBitLength, IsArrayType, IsNativeDataStuffed, IsDataTypeBitBased, AlignUp, Pad;
    Lengths(d.type_);
    EntryBits(d, streamSizeInBit);
    if d.type_.NullType? {
      if d.nElements == 0 {
        // (empty subindex)
        if d.hasName || d.attributes != 0 || d.byteOffset != 0 || d.bitOffset != 0 { return EntryRejected; }
        return EntryOk(prevSIwasGap, streamSizeInBit);
      }
      // (gap subindex)
      if !d.hasName || And(d.attributes, ATTR_ACCESS_RW) == 0 || d.byteOffset != 0 || d.bitOffset != 0 { return EntryRejected; }
      if prevSIwasGap { return EntryRejected; }
      return EntryOk(true, streamSizeInBit + d.nElements);
    }
    // ("normal" subindex)
    if !d.hasName { return EntryRejected; }
    var bitLength, nativeBitLength := BitLength(d.type_), NativeBitLength(d.type_);
    if bitLength == 0 || nativeBitLength == 0 { return EntryTypeNotSupported; }
    if And(d.attributes, ATTR_ACCESS_RW) == 0 { return EntryRejected; }
    if IsArrayType(d.type_) {
      if d.nElements == 0 || d.nElements > 0xFFFE / bitLength { return EntryRejected; }
    } else {
      if d.nElements != 1 { return EntryRejected; }
    }
    if IsNativeDataStuffed(d.type_) {
      if d.bitOffset > 7 { return EntryRejected; }
      if d.byteOffset + (d.bitOffset + bitLength + 7) / 8 > structSize { return EntryRejected; }
    } else {
      if d.bitOffset != 0 { return EntryRejected; }
      if d.byteOffset + nativeBitLength * d.nElements / 8 > structSize { return EntryRejected; }
    }
    var size := streamSizeInBit;
    if !IsDataTypeBitBased(d.type_) {
      var requiredPadding := (8 - size % 8) % 8;
      if requiredPadding != 0 {
        if prevSIwasGap { return EntryRejected; }
        size := size + requiredPadding;
      }
    }
    return EntryOk(false, size + bitLength * d.nElements);
  }


  /** Entry i has a type that is not supported, and the entries before it are in order. */
  ghost predicate StopsAtType(ds: seq<SubIdxDescr>, i: nat, structSize: nat)
    requires i < |ds|
  {
    ds[i].hasName && ds[i].type_.Unsupported? && forall j :: 0 <= j < i ==> WellDescribed(ds[j], structSize) && GapRule(ds, j)
  }

  /** The loop of the constructor: validates the table and adds up the stream size. */
  method CheckTable(ds: seq<SubIdxDescr>, structSize: nat, hasMutex: bool) returns (r: TableCheck)
    ensures r.Accepted? <==> AcceptedTable(ds, structSize, hasMutex)
    ensures r.Accepted? ==> r.streamSizeInBit == StreamBits(0, ds)
    ensures r.TypeNotSupported? <==> structSize <= 0x1_0000 && exists i :: 0 <= i < |ds| && StopsAtType(ds, i, structSize)
  {
    hide And, EndsWithGap, StreamBits, WellDescribed, Behind;
    if structSize > 0x1_0000 { return Rejected; }
    var anyWriteable, prevSIwasGap, streamSizeInBit: nat := false, false, 0;
    NoEntries();
    assert ds[..0] == [];
    for i := 0 to |ds|
      invariant forall j :: 0 <= j < i ==> WellDescribed(ds[j], structSize) && GapRule(ds, j)
      invariant anyWriteable <==> exists j :: 0 <= j < i && IsNormal(ds[j]) && Writeable(ds[j])
      invariant prevSIwasGap == EndsWithGap(ds[..i]) && streamSizeInBit == StreamBits(0, ds[..i])
    {
      var d := ds[i];
      GapStep(ds, i);
      var c := CheckEntry(d, structSize, prevSIwasGap, streamSizeInBit);
      match c {
        case EntryRejected =>
          assert !(WellDescribed(d, structSize) && GapRule(ds, i));
          NotAtType(ds, i, structSize);
          return Rejected;
        case EntryTypeNotSupported =>
          assert StopsAtType(ds, i, structSize);
          return TypeNotSupported;
        case EntryOk(prev, size) =>
          if !d.type_.NullType? && And(d.attributes, ATTR_ACCESS_WR) != 0 { anyWriteable := true; }
          prevSIwasGap, streamSizeInBit := prev, size;
      }
    }
    assert ds[..|ds|] == ds;
    NotAtType(ds, |ds|, structSize);
    if anyWriteable && !hasMutex { return Rejected; }
    return Accepted(streamSizeInBit);
  }

  /** When the check stops at entry i for another reason, or not at all. */
  lemma NotAtType(ds: seq<SubIdxDescr>, i: nat, structSize: nat)
    requires i <= |ds| && (forall j :: 0 <= j < i ==> WellDescribed(ds[j], structSize))
    requires i < |ds| ==> !(ds[i].hasName && ds[i].type_.Unsupported?) && !(WellDescribed(ds[i], structSize) && GapRule(ds, i))
    ensures forall k :: 0 <= k < |ds| ==> !StopsAtType(ds, k, structSize)
  {
    forall k | 0 <= k < |ds| ensures !StopsAtType(ds, k, structSize) {
      if k < i { Lengths(ds[k].type_); }
    }
  }

  lemma NoEntries()
    ensures !EndsWithGap([]) && StreamBits(0, []) == 0
  {
  }

  // ---------------------------------------------------------------- single subindex access

  /** Stream data of one subindex in a single read. */
  function SingleSegment(d: SubIdxDescr, mem: seq<bool>, e: Endian): seq<bool>
    requires Fits(d, |mem|) && IsNormal(d)
  {
    if IsNativeDataStuffed(d.type_) then Cell(d, mem)
    else EncodedSingle(d.type_, d.nElements, BitsBytes(Cell(d, mem)), e)
  }

  function ReadSpec(w: Writer, ds: seq<SubIdxDescr>, mem: seq<bool>, subIdx: nat, permissions: nat,
                    beforeRead: SDOAbortCode, e: Endian): (Writer, Outcome)
    requires AllFit(ds, |mem|) && |ds| < 256
  {
    if subIdx > |ds| then (w, Done(SubindexDoesNotExist))
    else if subIdx == 0 then
      if And(permissions, ATTR_ACCESS_RD) == 0 then (w, Done(AttemptToReadWrOnlyObject))
      else if beforeRead != OK then (w, Done(beforeRead))
      else Finished(PushBytes(w, [|ds|]))
    else
      var d := ds[subIdx - 1];
      if IsEmpty(d) then (w, Done(SubindexDoesNotExist))
      else if And(And(d.attributes, ATTR_ACCESS_RD), permissions) == 0 then (w, Done(AttemptToReadWrOnlyObject))
      else if IsGap(d) then Finished(PushRun(w, Const(d.nElements, false)))
      else if beforeRead != OK then (w, Done(beforeRead))
      else Finished(Put(w, !IsDataTypeBitBased(d.type_), SingleSegment(d, mem, e)))
  }

  function Finished(p: (Writer, Status)): (Writer, Outcome)
  {
    (p.0, if p.1 == Ok then Done(OK) else Threw(p.1))
  }

  function WriteSpec(r: Reader, ds: seq<SubIdxDescr>, mem: seq<bool>, subIdx: nat, permissions: nat,
                     beforeWrite: SDOAbortCode, e: Endian): WriteResult
    requires AllFit(ds, |mem|)
  {
    if subIdx > |ds| then WriteResult(r, mem, Done(SubindexDoesNotExist))
    else if subIdx == 0 then WriteResult(r, mem, Done(AttemptToWriteRdOnlyObject))
    else
      var d := ds[subIdx - 1];
      if IsEmpty(d) then WriteResult(r, mem, Done(SubindexDoesNotExist))
      else if And(And(d.attributes, ATTR_ACCESS_WR), permissions) == 0 then WriteResult(r, mem, Done(AttemptToWriteRdOnlyObject))
      else if IsGap(d) then
        var f := FetchRun(r, d.nElements);
        var st := if f.st != Ok then f.st else Consumed(f.rd, SevenOrLess);
        WriteResult(f.rd, mem, if st == Ok then Done(OK) else StreamError(st))
      else
        var f := ReadNative(r, d.type_, d.nElements, false, e);
        var st := if f.st != Ok then f.st else Consumed(f.rd, SevenOrLess);
        if st != Ok then WriteResult(f.rd, mem, StreamError(st))
        else if beforeWrite != OK then WriteResult(f.rd, mem, Done(beforeWrite))
        else WriteResult(f.rd, Splice(mem, Lo(d), NativeToCell(d, f.native)), Done(OK))
  }

  /** The native bits of a subindex whose native data is given as bytes. */
  function NativeToCell(d: SubIdxDescr, native: seq<byte>): (r: seq<bool>)
    requires IsNormal(d) && !d.type_.Unsupported? && |native| == NativeSize(d.type_, d.nElements)
    requires IsNativeDataStuffed(d.type_) ==> d.nElements == 1
    ensures |r| == CellBits(d)
  {
    if IsNativeDataStuffed(d.type_) then BytesBits(native)[..BitLength(d.type_)] else BytesBits(native)
  }

  class ObjectRECORD {
    const ds: seq<SubIdxDescr>
    const structSize: nat
    const streamSizeInBit: nat
    ghost const hasMutex: bool
    var pStruct: array<byte>

    ghost predicate Valid()
      reads this
    {
      && |ds| < 256 && AcceptedTable(ds, structSize, hasMutex)
      && streamSizeInBit == StreamBits(0, ds) && pStruct.Length == structSize
    }

    /** The native structure as bits. */
    ghost function Mem(): (r: seq<bool>)
      reads this, pStruct
      ensures |r| == 8 * pStruct.Length
    {
      BytesBits(pStruct[..])
    }

    /** For a table that CheckTable has accepted. */
    constructor (mem: array<byte>, descriptions: seq<SubIdxDescr>, streamSize: nat, ghost hasMutex: bool)
      requires |descriptions| < 256 && AcceptedTable(descriptions, mem.Length, hasMutex)
      requires streamSize == StreamBits(0, descriptions)
      ensures Valid() && ds == descriptions && structSize == mem.Length && pStruct == mem
    {
      ds, structSize, streamSizeInBit, pStruct := descriptions, mem.Length, streamSize, mem;
      this.hasMutex := hasMutex;
    }

    lemma TableFits()
      requires Valid()
      ensures |Mem()| == 8 * structSize && AllFit(ds, |Mem()|) && |ds| < 256 && streamSizeInBit == StreamBits(0, ds)
    {
      hide WellDescribed, Fits, BytesBits, GapRule;
      forall i | 0 <= i < |ds| ensures Fits(ds[i], 8 * structSize) { AcceptedFits(ds[i], structSize); }
    }

    /** What the table says about an entry. */
    lemma EntryKind(i: nat)
      requires Valid() && i < |ds|
      ensures WellDescribed(ds[i], structSize) && Fits(ds[i], 8 * structSize)
      ensures IsNormal(ds[i]) ==> !IsEmpty(ds[i]) && !ds[i].type_.Unsupported?
    {
      hide WellDescribed, GapRule;
      AcceptedFits(ds[i], structSize);
    }

    /** GetObjectStreamSize. */
    function GetObjectStreamSize(SI016Bits: bool): (n: nat)
      requires Valid()
      reads this
      ensures n == 8 * SI0Size(SI016Bits) + StreamBits(0, ds)
    {
      streamSizeInBit + if SI016Bits then 16 else 8
    }

    /** Native data of a subindex that consists of bytes. */
    method NativeBytes(d: SubIdxDescr) returns (native: seq<byte>)
      requires Valid() && WellDescribed(d, structSize) && IsNormal(d) && !IsNativeDataStuffed(d.type_)
      ensures Fits(d, |Mem()|) && |native| == NativeSize(d.type_, d.nElements) && native == BitsBytes(Cell(d, Mem()))
    {
      hide BytesBits, BitsBytes, And, AcceptedTable, StreamBits, NativeSize;
      AcceptedFits(d, structSize);
      var p, n := d.byteOffset, NativeSize(d.type_, d.nElements);
      native := pStruct[p..p + n];
      assert native == pStruct[..][p..p + n];
      BytesSlice(pStruct[..], p, p + n);
      BytesRoundTrip(native);
    }

    /** The stream data of packed native data in one byte. */
    lemma OneByteNative(d: SubIdxDescr, v: byte, cell: seq<bool>, e: Endian)
      requires IsNormal(d) && IsNativeDataStuffed(d.type_) && BitLength(d.type_) <= 8 && ToBits(v, BitLength(d.type_)) == cell
      ensures NativeSize(d.type_, 1) == 1 || BitLength(d.type_) == 0
      ensures NativeSize(d.type_, 1) == 1 ==> Encoded(d.type_, 1, [v], e) == cell && EncodedSingle(d.type_, 1, [v], e) == cell
    {
      hide ToBits, BytesBits;
      BytesBitsOne(v);
      ToBitsPrefix(v, 8, BitLength(d.type_));
    }

    // -------------------------------------------------------------- complete read

    /** Complete read of one subindex that is not empty. */
    method EmitEntry(d: SubIdxDescr, w: MemStreamWriter) returns (st: Status)
      requires Valid() && WellDescribed(d, structSize) && !IsEmpty(d) && w.Valid() && w.buffer != pStruct
      modifies w, w.buffer
      ensures w.Valid() && Mem() == old(Mem()) && Fits(d, |Mem()|)
      ensures (w.Abs(), st) == Put(old(w.Abs()), !IsDataTypeBitBased(d.type_), Segment(d, Mem(), w.endian))
    {
      hide MemStreamWriter.Valid, MemStreamWriter.Abs;
      hide ToBits, BytesBits, BitsBytes, And, Put, Encoded, Repeat, Const, AcceptedTable, StreamBits;
      ghost var mem := pStruct[..];
      AcceptedFits(d, structSize);
      if And(d.attributes, ATTR_ACCESS_RD) == 0 || d.type_.NullType? {
        // pure write-only data and gaps read as zero
        st := EmitZeros(d, w);
      } else if IsNativeDataStuffed(d.type_) {
        var bits := ReadBits(pStruct, d);
        OneByteNative(d, bits, Cell(d, Mem()), w.endian);
        st := NativeDataToCANopenEncodedData([bits], d.type_, 1, true, w);
      } else {
        var native := NativeBytes(d);
        st := NativeDataToCANopenEncodedData(native, d.type_, d.nElements, true, w);
      }
      assert pStruct[..] == mem;
    }

    method EmitZeros(d: SubIdxDescr, w: MemStreamWriter) returns (st: Status)
      requires w.Valid() && !d.type_.Unsupported?
      modifies w, w.buffer
      ensures w.Valid()
      ensures (w.Abs(), st) == Put(old(w.Abs()), !IsDataTypeBitBased(d.type_), Const(d.nElements * BitLength(d.type_), false))
    {
      hide MemStreamWriter.Valid, MemStreamWriter.Abs;
      hide ToBits, BytesBits, Put, Repeat, Const;
      var nBits := BitLength(d.type_) * d.nElements;
      assert nBits == d.nElements * BitLength(d.type_);
      if IsDataTypeBitBased(d.type_) {
        st := FillBits(w, nBits, false);
      } else {
        SizeOf(d.type_, d.nElements);
        ZeroBytes(nBits / 8);
        st := FillBytes(w, nBits / 8, 0);
      }
    }

    /** CompleteRead. */
    method CompleteRead(inclSI0: bool, SI016Bits: bool, permissions: nat, beforeRead: SDOAbortCode, w: MemStreamWriter)
      returns (out: Outcome)
      requires Valid() && w.Valid() && w.buffer != pStruct
      modifies w, w.buffer
      ensures Valid() && w.Valid() && Mem() == old(Mem()) && AllFit(ds, |Mem()|)
      ensures (w.Abs(), out) ==
              CompleteReadSpec(old(w.Abs()), ds, Mem(), inclSI0, SI016Bits, permissions, beforeRead, w.endian)
    {
      hide MemStreamWriter.Valid, MemStreamWriter.Abs, ObjectRECORD.Valid;
      hide BytesBits, And, PutAll, AllFit, LeBytes, Ordered, ReadAllowed, Digits, LastBytes;
      ghost var mem := pStruct[..];
      TableFits();
      // check permissions
      if inclSI0 && And(permissions, ATTR_ACCESS_RD) == 0 { return Done(AttemptToReadWrOnlyObject); }
      var allowed := CheckReadable(permissions);
      if !allowed { return Done(AttemptToReadWrOnlyObject); }
      if beforeRead != OK { return Done(beforeRead); }
      var st := Ok;
      if inclSI0 { st := WriteUint(w, |ds|, SI0Size(SI016Bits)); }
      assert pStruct[..] == mem;
      if st != Ok { return Threw(st); }
      st := EmitAll(w);
      return if st == Ok then Done(OK) else Threw(st);
    }

    method CheckReadable(permissions: nat) returns (allowed: bool)
      ensures allowed == ReadAllowed(ds, permissions)
    {
      hide And;
      for i := 0 to |ds|
        invariant forall j :: 0 <= j < i && !IsEmpty(ds[j]) && Readable(ds[j]) ==>
                    And(And(ds[j].attributes, ATTR_ACCESS_RD), permissions) != 0
      {
        if ds[i].nElements != 0 {
          // not pure write-only and permissions not sufficient?
          if And(ds[i].attributes, ATTR_ACCESS_RD) != 0 {
            if And(And(ds[i].attributes, ATTR_ACCESS_RD), permissions) == 0 { return false; }
          }
        }
      }
      return true;
    }

    /** The other subindices. */
    method EmitAll(w: MemStreamWriter) returns (st: Status)
      requires Valid() && w.Valid() && w.buffer != pStruct
      modifies w, w.buffer
      ensures w.Valid() && Mem() == old(Mem()) && AllFit(ds, |Mem()|)
      ensures (w.Abs(), st) == PutAll(old(w.Abs()), ds, Mem(), w.endian)
    {
      hide MemStreamWriter.Valid, MemStreamWriter.Abs, ObjectRECORD.Valid, ObjectRECORD.Mem;
      hide Fits, Segment, Put, WellDescribed;
      ghost var w0, mem := w.Abs(), Mem();
      TableFits();
      st := Ok;
      assert ds[0..] == ds;
      for i := 0 to |ds|
        invariant w.Valid() && st == Ok && Mem() == mem && AllFit(ds[i..], |mem|)
        invariant PutAll(w0, ds, mem, w.endian) == PutAll(w.Abs(), ds[i..], mem, w.endian)
      {
        assert ds[i..][0] == ds[i] && ds[i..][1..] == ds[i + 1..];
        // skip empty subindices
        if ds[i].nElements != 0 {
          EntryKind(i);
          st := EmitEntry(ds[i], w);
          if st != Ok { return; }
        }
      }
    }

    // -------------------------------------------------------------- complete write

    /** Complete write of one subindex that is not empty, into temporary memory. */
    method CollectEntry(d: SubIdxDescr, r: MemStreamReader, temp: array<byte>) returns (st: Status)
      requires WellDescribed(d, temp.Length) && !IsEmpty(d) && r.Valid()
      modifies r, temp
      ensures r.Valid() && Fits(d, 8 * temp.Length)
      ensures var f := Get(old(r.Abs()), !IsDataTypeBitBased(d.type_), d.nElements * BitLength(d.type_));
              && r.Abs() == f.rd && st == f.st
              && BytesBits(temp[..]) == if st == Ok then Stored(d, BytesBits(old(temp[..])), f.val, r.endian) else BytesBits(old(temp[..]))
    {
      hide MemStreamReader.Valid, MemStreamReader.Abs;
      hide ToBits, FromBits, BytesBits, BitsBytes, And, Get, Decoded, Splice, NativeSize;
      ghost var mem := temp[..];
      AcceptedFits(d, temp.Length);
      if d.type_.NullType? {
        // gap
        st := r.Skip(d.nElements);
        assert temp[..] == mem;
      } else if And(d.attributes, ATTR_ACCESS_WR) == 0 {
        // pure read-only
        st := SkipEntry(d, r);
        assert temp[..] == mem;
      } else if IsNativeDataStuffed(d.type_) {
        st := StoreStuffed(d, r, temp);
      } else {
        var native;
        st, native := CANopenEncodedDataToNativeData(r, d.type_, d.nElements, true);
        assert temp[..] == mem;
        if st == Ok { CopyTo(temp, d.byteOffset, native); }
      }
    }

    method SkipEntry(d: SubIdxDescr, r: MemStreamReader) returns (st: Status)
      requires IsNormal(d) && !d.type_.Unsupported? && !IsEmpty(d) && r.Valid()
      modifies r
      ensures r.Valid()
      ensures var f := Get(old(r.Abs()), !IsDataTypeBitBased(d.type_), d.nElements * BitLength(d.type_)); r.Abs() == f.rd && st == f.st
    {
      hide MemStreamReader.Valid, MemStreamReader.Abs, Get;
      var nBits := BitLength(d.type_) * d.nElements;
      assert nBits == d.nElements * BitLength(d.type_);
      if IsDataTypeBitBased(d.type_) {
        st := r.Skip(nBits);
      } else {
        SizeOf(d.type_, d.nElements);
        Positive(d.nElements, Width(d.type_));
        st := SkipBytes(r, nBits / 8);
      }
    }

    method StoreStuffed(d: SubIdxDescr, r: MemStreamReader, temp: array<byte>) returns (st: Status)
      requires WellDescribed(d, temp.Length) && IsNormal(d) && IsNativeDataStuffed(d.type_) && Writeable(d) && r.Valid()
      modifies r, temp
      ensures r.Valid() && Fits(d, 8 * temp.Length)
      ensures var f := Get(old(r.Abs()), !IsDataTypeBitBased(d.type_), d.nElements * BitLength(d.type_));
              && r.Abs() == f.rd && st == f.st
              && BytesBits(temp[..]) == if st == Ok then Stored(d, BytesBits(old(temp[..])), f.val, r.endian) else BytesBits(old(temp[..]))
    {
      hide MemStreamReader.Valid, MemStreamReader.Abs;
      hide ToBits, FromBits, BytesBits, BitsBytes, And, Get, PackBits, Splice;
      ghost var mem, f := temp[..], Get(r.Abs(), !IsDataTypeBitBased(d.type_), d.nElements * BitLength(d.type_));
      AcceptedFits(d, temp.Length);
      var native;
      st, native := CANopenEncodedDataToNativeData(r, d.type_, 1, true);
      assert temp[..] == mem;
      if st == Ok {
        PackedByte(f.val, native);
        WriteBits(temp, d, native[0]);
      }
    }

    /** Reads one byte to get to a byte boundary, then skips the others. */
    method SkipBytes(r: MemStreamReader, nBytes: nat) returns (st: Status)
      requires r.Valid() && nBytes > 0
      modifies r
      ensures r.Valid() && r.Abs() == FetchBytes(old(r.Abs()), nBytes).rd && st == FetchBytes(old(r.Abs()), nBytes).st
    {
      hide MemStreamReader.Valid, MemStreamReader.Abs;
      hide FetchBytes, FetchRun, Fetch, ToBits, FromBits;
      ByteThenRest(r.Abs(), nBytes);
      var c;
      st, c := r.Pop();
      if st == Ok { st := r.Skip((nBytes - 1) * 8); }
    }

    lemma ByteThenRest(r: Reader, nBytes: nat)
      requires nBytes > 0
      ensures var f, g := Fetch(r, true, 8), FetchBytes(r, nBytes);
              if f.st != Ok then g.rd == f.rd && g.st == f.st
              else g.rd == FetchRun(f.rd, (nBytes - 1) * 8).rd && g.st == FetchRun(f.rd, (nBytes - 1) * 8).st
    {
      hide AlignUp;
    }

    /** CompleteWrite. */
    method CompleteWrite(inclSI0: bool, SI016Bits: bool, permissions: nat, beforeWrite: SDOAbortCode,
                         r: MemStreamReader, ernob: Expectation)
      returns (out: Outcome)
      requires Valid() && r.Valid()
      modifies r, pStruct
      ensures Valid() && r.Valid() && AllFit(ds, |old(Mem())|)
      ensures WriteResult(r.Abs(), Mem(), out) ==
              CompleteWriteSpec(old(r.Abs()), ds, old(Mem()), inclSI0, SI016Bits, permissions, ernob, beforeWrite, r.endian)
    {
      hide MemStreamReader.Valid, MemStreamReader.Abs, ObjectRECORD.Valid;
      hide BytesBits, BitsBytes, And, AllFit, FetchBytes, IntValue, WriteAllowed, AnyPureReadOnly, WriteDataSpec, Digits,
           PassedBytes, Pow2;
      ghost var mem := pStruct[..];
      TableFits();
      var allowed, anySubIdxPureRO := CheckWriteable(permissions);
      if !allowed { return Done(AttemptToWriteRdOnlyObject); }
      if inclSI0 {
        var st, providedSI0Value := ReadUint(r, SI0Size(SI016Bits));
        assert pStruct[..] == mem;
        if st != Ok { return StreamError(st); }
        // SI0 is pure read-only and must match
        if providedSI0Value != |ds| { return Done(UnsupportedAccessToObject); }
      } else {
        NoBytesFetched(r.Abs());
      }
      out := WriteData(r, ernob, beforeWrite, anySubIdxPureRO);
    }

    /** Permissions, and whether there is any pure read-only subindex that is neither empty nor a gap. */
    method CheckWriteable(permissions: nat) returns (allowed: bool, anySubIdxPureRO: bool)
      requires Valid()
      ensures allowed == WriteAllowed(ds, permissions)
      ensures allowed ==> anySubIdxPureRO == AnyPureReadOnly(ds)
    {
      hide And, ObjectRECORD.Valid, WellDescribed, Fits;
      anySubIdxPureRO := false;
      for i := 0 to |ds|
        invariant forall j :: 0 <= j < i && !IsEmpty(ds[j]) && Writeable(ds[j]) ==>
                    And(And(ds[j].attributes, ATTR_ACCESS_WR), permissions) != 0
        invariant anySubIdxPureRO <==> exists j :: 0 <= j < i && IsNormal(ds[j]) && !Writeable(ds[j])
      {
        EntryKind(i);
        if ds[i].nElements != 0 {
          if And(ds[i].attributes, ATTR_ACCESS_WR) == 0 {
            if !ds[i].type_.NullType? { anySubIdxPureRO := true; }
          } else {
            if And(And(ds[i].attributes, ATTR_ACCESS_WR), permissions) == 0 { return false, anySubIdxPureRO; }
          }
        }
      }
      return true, anySubIdxPureRO;
    }

    /** Complete write behind SI0. */
    method WriteData(r: MemStreamReader, ernob: Expectation, beforeWrite: SDOAbortCode, anySubIdxPureRO: bool)
      returns (out: Outcome)
      requires Valid() && r.Valid() && anySubIdxPureRO == AnyPureReadOnly(ds)
      modifies r, pStruct
      ensures Valid() && r.Valid() && AllFit(ds, |old(Mem())|)
      ensures WriteResult(r.Abs(), Mem(), out) ==
              WriteDataSpec(old(r.Abs()), ds, old(Mem()), ernob, beforeWrite, r.endian)
    {
      hide MemStreamReader.Valid, MemStreamReader.Abs, ObjectRECORD.Valid;
      hide BytesBits, AllFit, GetAll, Updated, AnyPureReadOnly, Const;
      ghost var mem := pStruct[..];
      TableFits();
      var st, temp := Collect(r);
      if st == Ok { st := r.EnsureAllDataConsumed(ernob); }
      assert pStruct[..] == mem;
      if st != Ok { return StreamError(st); }
      if beforeWrite != OK { return Done(beforeWrite); }
      WriteBack(temp, anySubIdxPureRO);
      return Done(OK);
    }

    /** Reads the stream into temporary memory, which is zero before. */
    method Collect(r: MemStreamReader) returns (st: Status, temp: array<byte>)
      requires Valid() && r.Valid()
      modifies r
      ensures r.Valid() && fresh(temp) && temp.Length == structSize && Mem() == old(Mem()) && AllFit(ds, 8 * structSize)
      ensures Collected(r.Abs(), st, BytesBits(temp[..])) == GetAll(old(r.Abs()), ds, Const(8 * structSize, false), r.endian)
    {
      hide MemStreamReader.Valid, MemStreamReader.Abs, ObjectRECORD.Valid;
      hide BytesBits, Fits, WellDescribed, Get, Stored, Const;
      ghost var r0, before := r.Abs(), pStruct[..];
      TableFits();
      temp := new byte[structSize](i => 0);
      ZeroMemory(temp[..]);
      ghost var zeros := BytesBits(temp[..]);
      st := Ok;
      assert ds[0..] == ds;
      for i := 0 to |ds|
        invariant r.Valid() && st == Ok && fresh(temp) && temp.Length == structSize && AllFit(ds[i..], 8 * structSize)
        invariant pStruct[..] == before
        invariant GetAll(r0, ds, zeros, r.endian) == GetAll(r.Abs(), ds[i..], BytesBits(temp[..]), r.endian)
      {
        assert ds[i..][0] == ds[i] && ds[i..][1..] == ds[i + 1..];
        // skip empty subindices
        if ds[i].nElements != 0 {
          EntryKind(i);
          st := CollectEntry(ds[i], r, temp);
          assert pStruct[..] == before;
          if st != Ok { return; }
        }
      }
    }

    lemma ZeroMemory(mem: seq<byte>)
      requires forall i :: 0 <= i < |mem| ==> mem[i] == 0
      ensures BytesBits(mem) == Const(8 * |mem|, false)
    {
      hide BytesBits, Const;
      ZeroBytes(|mem|);
      assert mem == Repeat(0, |mem|);
    }

    /** Replaces the whole structure, or writes the writeable subindices one by one. */
    method WriteBack(temp: array<byte>, anySubIdxPureRO: bool)
      requires Valid() && temp != pStruct && temp.Length == structSize && anySubIdxPureRO == AnyPureReadOnly(ds)
      modifies pStruct
      ensures Valid() && AllFit(ds, |old(Mem())|) && Mem() == Updated(old(Mem()), ds, BytesBits(temp[..]))
    {
      hide BytesBits, AllFit, Copied, AnyPureReadOnly, AcceptedTable, StreamBits;
      TableFits();
      if !anySubIdxPureRO {
        CopyTo(pStruct, 0, temp[..]);
        SpliceAll(BytesBits(old(pStruct[..])), BytesBits(temp[..]));
      } else {
        CopyCells(temp);
      }
    }

    lemma SpliceAll(s: seq<bool>, t: seq<bool>)
      requires |s| == |t|
      ensures Splice(s, 0, t) == t
    {
    }

    method CopyCells(temp: array<byte>)
      requires Valid() && temp != pStruct && temp.Length == structSize
      modifies pStruct
      ensures Valid() && AllFit(ds, |old(Mem())|) && Mem() == Copied(old(Mem()), ds, BytesBits(temp[..]))
    {
      hide BytesBits, Fits, WellDescribed, Cell, Splice, ObjectRECORD.Valid;
      ghost var m0, t := Mem(), temp[..];
      TableFits();
      assert ds[0..] == ds;
      for i := 0 to |ds|
        invariant Valid() && temp[..] == t && |Mem()| == |m0| && AllFit(ds[i..], |m0|)
        invariant Copied(m0, ds, BytesBits(t)) == Copied(Mem(), ds[i..], BytesBits(t))
      {
        assert ds[i..][0] == ds[i] && ds[i..][1..] == ds[i + 1..];
        EntryKind(i);
        // skip empty, gap and pure read-only subindices
        if !ds[i].type_.NullType? && And(ds[i].attributes, ATTR_ACCESS_WR) != 0 { CopyCell(ds[i], temp); }
      }
    }

    method CopyCell(d: SubIdxDescr, temp: array<byte>)
      requires Valid() && WellDescribed(d, structSize) && IsNormal(d) && temp != pStruct && temp.Length == structSize
      modifies pStruct
      ensures Valid() && Fits(d, 8 * structSize) && Mem() == Splice(old(Mem()), Lo(d), Cell(d, BytesBits(temp[..])))
    {
      hide BytesBits, ToBits, Splice, And, AcceptedTable, StreamBits, NativeSize;
      AcceptedFits(d, structSize);
      if IsNativeDataStuffed(d.type_) {
        var bits := ReadBits(temp, d);
        WriteBits(pStruct, d, bits);
      } else {
        var p, n := d.byteOffset, NativeSize(d.type_, d.nElements);
        BytesSlice(temp[..], p, p + n);
        assert temp[p..p + n] == temp[..][p..p + n];
        CopyTo(pStruct, p, temp[p..p + n]);
      }
    }

    // -------------------------------------------------------------- single access

    /** Read: one subindex. */
    method Read(subIdx: nat, permissions: nat, beforeRead: SDOAbortCode, w: MemStreamWriter) returns (out: Outcome)
      requires Valid() && w.Valid() && w.buffer != pStruct
      modifies w, w.buffer
      ensures Valid() && w.Valid() && Mem() == old(Mem()) && AllFit(ds, |Mem()|)
      ensures (w.Abs(), out) == ReadSpec(old(w.Abs()), ds, Mem(), subIdx, permissions, beforeRead, w.endian)
    {
      hide MemStreamWriter.Valid, MemStreamWriter.Abs, ObjectRECORD.Valid;
      hide BytesBits, BitsBytes, And, Put, Const, WellDescribed, Fits, SingleSegment, Encoded, ToBits;
      ghost var mem := pStruct[..];
      TableFits();
      if subIdx > |ds| { return Done(SubindexDoesNotExist); }
      var st;
      if subIdx == 0 {
        if And(permissions, ATTR_ACCESS_RD) == 0 { return Done(AttemptToReadWrOnlyObject); }
        if beforeRead != OK { return Done(beforeRead); }
        OneByteEncoded(|ds|, w.endian);
        st := NativeDataToCANopenEncodedData([|ds|], Unsigned8, 1, false, w);
      } else {
        var d := ds[subIdx - 1];
        if d.nElements == 0 { return Done(SubindexDoesNotExist); }
        if And(And(d.attributes, ATTR_ACCESS_RD), permissions) == 0 { return Done(AttemptToReadWrOnlyObject); }
        if d.type_.NullType? {
          st := FillBits(w, d.nElements, false);
        } else {
          if beforeRead != OK { return Done(beforeRead); }
          EntryKind(subIdx - 1);
          st := ReadEntry(d, w);
        }
      }
      assert pStruct[..] == mem;
      return if st == Ok then Done(OK) else Threw(st);
    }

    lemma OneByteEncoded(b: byte, e: Endian)
      ensures NativeSize(Unsigned8, 1) == 1 && !IsDataTypeBitBased(Unsigned8)
      ensures EncodedSingle(Unsigned8, 1, [b], e) == BytesBits([b])
    {
      hide BytesBits, Swapped;
      OneByteSwap([b], e);
    }

    /** Single read of a subindex that is neither empty nor a gap. */
    method ReadEntry(d: SubIdxDescr, w: MemStreamWriter) returns (st: Status)
      requires Valid() && WellDescribed(d, structSize) && IsNormal(d) && w.Valid() && w.buffer != pStruct
      modifies w, w.buffer
      ensures w.Valid() && Mem() == old(Mem()) && Fits(d, |Mem()|)
      ensures (w.Abs(), st) == Put(old(w.Abs()), !IsDataTypeBitBased(d.type_), SingleSegment(d, Mem(), w.endian))
    {
      hide MemStreamWriter.Valid, MemStreamWriter.Abs;
      hide ToBits, BytesBits, BitsBytes, And, Put, Encoded, EncodedSingle, AcceptedTable, StreamBits;
      ghost var mem := pStruct[..];
      AcceptedFits(d, structSize);
      if IsNativeDataStuffed(d.type_) {
        var bits := ReadBits(pStruct, d);
        OneByteNative(d, bits, Cell(d, Mem()), w.endian);
        st := NativeDataToCANopenEncodedData([bits], d.type_, 1, false, w);
      } else {
        var native := NativeBytes(d);
        st := NativeDataToCANopenEncodedData(native, d.type_, d.nElements, false, w);
      }
      assert pStruct[..] == mem;
    }

    /** Write: one subindex. */
    method Write(subIdx: nat, permissions: nat, beforeWrite: SDOAbortCode, r: MemStreamReader) returns (out: Outcome)
      requires Valid() && r.Valid()
      modifies r, pStruct
      ensures Valid() && r.Valid() && AllFit(ds, |old(Mem())|)
      ensures WriteResult(r.Abs(), Mem(), out) ==
              WriteSpec(old(r.Abs()), ds, old(Mem()), subIdx, permissions, beforeWrite, r.endian)
    {
      hide MemStreamReader.Valid, MemStreamReader.Abs, ObjectRECORD.Valid;
      hide BytesBits, And, WellDescribed, Fits, ReadNative, NativeToCell, Splice;
      ghost var mem := pStruct[..];
      TableFits();
      if subIdx > |ds| { return Done(SubindexDoesNotExist); }
      // SI0 is always read-only
      if subIdx == 0 { return Done(AttemptToWriteRdOnlyObject); }
      var d := ds[subIdx - 1];
      if d.nElements == 0 { return Done(SubindexDoesNotExist); }
      if And(And(d.attributes, ATTR_ACCESS_WR), permissions) == 0 { return Done(AttemptToWriteRdOnlyObject); }
      EntryKind(subIdx - 1);
      var st;
      if d.type_.NullType? {
        st := r.Skip(d.nElements);
        if st == Ok { st := r.EnsureAllDataConsumed(SevenOrLess); }
        assert pStruct[..] == mem;
        if st != Ok { return StreamError(st); }
      } else {
        var native;
        st, native := CANopenEncodedDataToNativeData(r, d.type_, d.nElements, false);
        if st == Ok { st := r.EnsureAllDataConsumed(SevenOrLess); }
        assert pStruct[..] == mem;
        if st != Ok { return StreamError(st); }
        if beforeWrite != OK { return Done(beforeWrite); }
        StoreNative(d, native);
      }
      return Done(OK);
    }

    /** Stores native data in the structure. */
    method StoreNative(d: SubIdxDescr, native: seq<byte>)
      requires Valid() && WellDescribed(d, structSize) && IsNormal(d) && |native| == NativeSize(d.type_, d.nElements)
      modifies pStruct
      ensures Valid() && Fits(d, |old(Mem())|) && Mem() == Splice(old(Mem()), Lo(d), NativeToCell(d, native))
    {
      hide BytesBits, ToBits, Splice, And, AcceptedTable, StreamBits;
      AcceptedFits(d, structSize);
      if IsNativeDataStuffed(d.type_) {
        OneByteBits(native, BitLength(d.type_));
        WriteBits(pStruct, d, native[0]);
      } else {
        CopyTo(pStruct, d.byteOffset, native);
      }
    }

    lemma OneByteBits(native: seq<byte>, n: nat)
      requires |native| == 1 && n <= 8
      ensures BytesBits(native)[..n] == ToBits(native[0], n)
    {
      hide ToBits, BytesBits;
      assert native == [native[0]];
      BytesBitsOne(native[0]);
      ToBitsPrefix(native[0], 8, n);
    }
  }
}
