/**
 What complete access to a RECORD object means: its subindex table, the stream data of the whole object, and the native
 memory as a string of bits (src/cood/ObjectRECORD.cpp).
 */
module RecordSpec {
  import opened UInt
  import opened StreamSpec
  import opened DataTypes
  import opened ObjectCodec
  import opened BitMemory

  const ATTR_ACCESS_RD: nat := 0x0407
  const ATTR_ACCESS_WR: nat := 0x0038
  const ATTR_ACCESS_RW: nat := 0x043F

  datatype SubIdxDescr = SubIdxDescr(
    hasName: bool,
    type_: DataType,
    attributes: nat,
    nElements: nat,
    byteOffset: nat,
    bitOffset: nat)

  predicate IsEmpty(d: SubIdxDescr) { d.nElements == 0 }
  predicate IsGap(d: SubIdxDescr) { d.type_.NullType? && d.nElements != 0 }
  predicate IsNormal(d: SubIdxDescr) { !d.type_.NullType? }
  predicate Readable(d: SubIdxDescr) { And(d.attributes, ATTR_ACCESS_RD) != 0 }
  predicate Writeable(d: SubIdxDescr) { And(d.attributes, ATTR_ACCESS_WR) != 0 }

  // ---------------------------------------------------------------- tables the constructor accepts

  /** The rules for one entry. */
  predicate WellDescribed(d: SubIdxDescr, structSize: nat)
  {
    if d.type_.NullType? then
      && d.byteOffset == 0 && d.bitOffset == 0
      && (if d.nElements == 0 then !d.hasName && d.attributes == 0
          else d.hasName && And(d.attributes, ATTR_ACCESS_RW) != 0)
    else
      && d.hasName
      && BitLength(d.type_) != 0 && NativeBitLength(d.type_) != 0
      && And(d.attributes, ATTR_ACCESS_RW) != 0
      && (if IsArrayType(d.type_) then d.nElements != 0 && d.nElements <= 0xFFFE / BitLength(d.type_) else d.nElements == 1)
      && (if IsNativeDataStuffed(d.type_) then
            d.bitOffset <= 7 && d.byteOffset + (d.bitOffset + BitLength(d.type_) + 7) / 8 <= structSize
          else
            d.bitOffset == 0 && d.byteOffset + NativeBitLength(d.type_) * d.nElements / 8 <= structSize)
  }

  /** Position in the stream behind an entry that starts at pos. */
  function Behind(pos: nat, d: SubIdxDescr): nat
  {
    if IsEmpty(d) then pos
    else (if IsDataTypeBitBased(d.type_) then pos else AlignUp(pos)) + d.nElements * BitLength(d.type_)
  }

  /** Position behind all entries: the bit size of the object without SI0 when pos is 0. */
  function StreamBits(pos: nat, ds: seq<SubIdxDescr>): nat
    decreases |ds|
  {
    if ds == [] then pos else StreamBits(Behind(pos, ds[0]), ds[1..])
  }

  /** Whether the last entry of ds that is not empty is a gap. */
  predicate EndsWithGap(ds: seq<SubIdxDescr>)
  {
    ds != [] && var d := ds[|ds| - 1]; if IsEmpty(d) && d.type_.NullType? then EndsWithGap(ds[..|ds| - 1]) else IsGap(d)
  }

  /** A gap must not follow a gap, and must leave byte-based data on a byte boundary. */
  ghost predicate GapRule(ds: seq<SubIdxDescr>, i: nat)
    requires i < |ds|
  {
    EndsWithGap(ds[..i]) ==>
      && !IsGap(ds[i])
      && (IsNormal(ds[i]) && !IsDataTypeBitBased(ds[i].type_) ==> StreamBits(0, ds[..i]) % 8 == 0)
  }

  ghost predicate AcceptedTable(ds: seq<SubIdxDescr>, structSize: nat, hasMutex: bool)
  {
    && structSize <= 0x1_0000
    && (forall i :: 0 <= i < |ds| ==> WellDescribed(ds[i], structSize) && GapRule(ds, i))
    && ((exists i :: 0 <= i < |ds| && IsNormal(ds[i]) && Writeable(ds[i])) ==> hasMutex)
  }

  lemma {:induction false} StreamBitsAppend(pos: nat, a: seq<SubIdxDescr>, d: SubIdxDescr)
    ensures StreamBits(pos, a + [d]) == Behind(StreamBits(pos, a), d)
    decreases |a|
  {
    hide Behind;
    if a == [] {
      assert a + [d] == [d];
    } else {
      assert (a + [d])[1..] == a[1..] + [d];
      StreamBitsAppend(Behind(pos, a[0]), a[1..], d);
    }
  }

  // ---------------------------------------------------------------- native memory

  /** First bit and number of bits of the native data of a normal subindex. */
  function Lo(d: SubIdxDescr): nat { 8 * d.byteOffset + d.bitOffset }

  function CellBits(d: SubIdxDescr): nat
  {
    if IsNativeDataStuffed(d.type_) then BitLength(d.type_) else 8 * NativeSize(d.type_, d.nElements)
  }

  ghost predicate DisjointRanges(ds: seq<SubIdxDescr>)
  {
    forall i, j :: 0 <= i < j < |ds| && IsNormal(ds[i]) && IsNormal(ds[j]) ==>
      Lo(ds[i]) + CellBits(ds[i]) <= Lo(ds[j]) || Lo(ds[j]) + CellBits(ds[j]) <= Lo(ds[i])
  }

  /** What an accepted entry guarantees about a native memory of nBits bits. */
  predicate Fits(d: SubIdxDescr, nBits: nat)
  {
    && (!IsEmpty(d) ==> BitLength(d.type_) > 0)
    && (IsNormal(d) ==>
          && !IsEmpty(d) && !d.type_.Unsupported?
          && Lo(d) + CellBits(d) <= nBits
          && (IsNativeDataStuffed(d.type_) ==> d.nElements == 1))
  }

  ghost predicate AllFit(ds: seq<SubIdxDescr>, nBits: nat)
  {
    forall i :: 0 <= i < |ds| ==> Fits(ds[i], nBits)
  }

  lemma AcceptedFits(d: SubIdxDescr, structSize: nat)
    requires WellDescribed(d, structSize)
    ensures Fits(d, 8 * structSize)
    ensures IsNormal(d) && !IsNativeDataStuffed(d.type_) ==> d.byteOffset + NativeSize(d.type_, d.nElements) <= structSize
  {
    if IsNormal(d) && !IsNativeDataStuffed(d.type_) { NativeBytes(d.type_, d.nElements); }
  }

  lemma NativeBytes(t: DataType, n: nat)
    requires !t.NullType? && !t.Unsupported? && !IsNativeDataStuffed(t)
    ensures NativeBitLength(t) * n / 8 == NativeSize(t, n)
  {
    if !t.Boolean? {
      var k := Width(t);
      assert NativeBitLength(t) == 8 * k;
      assert (8 * k) * n == 8 * (n * k);
    }
  }

  /** The native bits of a subindex. */
  function Cell(d: SubIdxDescr, mem: seq<bool>): (r: seq<bool>)
    requires Lo(d) + CellBits(d) <= |mem|
    ensures |r| == CellBits(d)
  {
    mem[Lo(d)..Lo(d) + CellBits(d)]
  }

  /** Stream data for a native cell of a readable subindex. */
  function CellToStream(d: SubIdxDescr, cell: seq<bool>, e: Endian): seq<bool>
    requires IsNormal(d) && !d.type_.Unsupported? && |cell| == CellBits(d)
  {
    if IsNativeDataStuffed(d.type_) then cell else Encoded(d.type_, d.nElements, BitsBytes(cell), e)
  }

  /** Native cell for stream data. */
  function StreamToCell(d: SubIdxDescr, s: seq<bool>, e: Endian): (r: seq<bool>)
    requires IsNormal(d) && !d.type_.Unsupported? && |s| == d.nElements * BitLength(d.type_)
    requires IsNativeDataStuffed(d.type_) ==> d.nElements == 1
    ensures |r| == CellBits(d)
  {
    if IsNativeDataStuffed(d.type_) then s else BytesBits(Decoded(d.type_, d.nElements, s, e))
  }

  // ---------------------------------------------------------------- complete read

  /** Stream data of one subindex that is not empty; gaps and write-only subindices read as zero. */
  function Segment(d: SubIdxDescr, mem: seq<bool>, e: Endian): seq<bool>
    requires Fits(d, |mem|)
  {
    if !Readable(d) || d.type_.NullType? then Const(d.nElements * BitLength(d.type_), false)
    else CellToStream(d, Cell(d, mem), e)
  }

  /** The stream after one subindex. */
  function AfterEntry(out: seq<bool>, d: SubIdxDescr, mem: seq<bool>, e: Endian): seq<bool>
    requires Fits(d, |mem|)
  {
    if IsEmpty(d) then out else Extended(out, !IsDataTypeBitBased(d.type_), Segment(d, mem, e))
  }

  /** The stream after all subindices. */
  function Image(out: seq<bool>, ds: seq<SubIdxDescr>, mem: seq<bool>, e: Endian): seq<bool>
    requires AllFit(ds, |mem|)
    decreases |ds|
  {
    if ds == [] then out else Image(AfterEntry(out, ds[0], mem, e), ds[1..], mem, e)
  }

  /** Writing all subindices. */
  function PutAll(w: Writer, ds: seq<SubIdxDescr>, mem: seq<bool>, e: Endian): (Writer, Status)
    requires AllFit(ds, |mem|)
    decreases |ds|
  {
    if ds == [] then (w, Ok)
    else if IsEmpty(ds[0]) then PutAll(w, ds[1..], mem, e)
    else
      var (w1, st) := Put(w, !IsDataTypeBitBased(ds[0].type_), Segment(ds[0], mem, e));
      if st == Ok then PutAll(w1, ds[1..], mem, e) else (w1, st)
  }

  // ---------------------------------------------------------------- complete write

  datatype Collected = Collected(rd: Reader, st: Status, temp: seq<bool>)

  /** Reading all subindices into temporary memory; gaps and read-only subindices are skipped. */
  function GetAll(r: Reader, ds: seq<SubIdxDescr>, temp: seq<bool>, e: Endian): (c: Collected)
    requires AllFit(ds, |temp|)
    ensures |c.temp| == |temp|
    decreases |ds|
  {
    if ds == [] then Collected(r, Ok, temp)
    else if IsEmpty(ds[0]) then GetAll(r, ds[1..], temp, e)
    else
      var f := Get(r, !IsDataTypeBitBased(ds[0].type_), ds[0].nElements * BitLength(ds[0].type_));
      if f.st != Ok then Collected(f.rd, f.st, temp)
      else GetAll(f.rd, ds[1..], Stored(ds[0], temp, f.val, e), e)
  }

  /** Temporary memory after the stream data s of one subindex. */
  function Stored(d: SubIdxDescr, temp: seq<bool>, s: seq<bool>, e: Endian): (r: seq<bool>)
    requires Fits(d, |temp|) && |s| == d.nElements * BitLength(d.type_)
    ensures |r| == |temp|
  {
    if IsNormal(d) && Writeable(d) then Splice(temp, Lo(d), StreamToCell(d, s, e)) else temp
  }

  predicate AnyPureReadOnly(ds: seq<SubIdxDescr>)
  {
    exists i :: 0 <= i < |ds| && IsNormal(ds[i]) && !Writeable(ds[i])
  }

  /** The writeable cells of temp copied over mem. */
  function Copied(mem: seq<bool>, ds: seq<SubIdxDescr>, temp: seq<bool>): (r: seq<bool>)
    requires |temp| == |mem| && AllFit(ds, |mem|)
    ensures |r| == |mem|
    decreases |ds|
  {
    if ds == [] then mem
    else if IsNormal(ds[0]) && Writeable(ds[0]) then Copied(Splice(mem, Lo(ds[0]), Cell(ds[0], temp)), ds[1..], temp)
    else Copied(mem, ds[1..], temp)
  }

  /** Native memory after a complete write that collected temp. */
  function Updated(mem: seq<bool>, ds: seq<SubIdxDescr>, temp: seq<bool>): (r: seq<bool>)
    requires |temp| == |mem| && AllFit(ds, |mem|)
    ensures |r| == |mem|
  {
    if AnyPureReadOnly(ds) then Copied(mem, ds, temp) else temp
  }

  // ---------------------------------------------------------------- sizes

  lemma SegmentSize(d: SubIdxDescr, mem: seq<bool>, e: Endian)
    requires Fits(d, |mem|) && !IsEmpty(d)
    ensures |Segment(d, mem, e)| == d.nElements * BitLength(d.type_) > 0
  {
    hide BytesBits, BitsBytes, Encoded;
    Positive(d.nElements, BitLength(d.type_));
    if Readable(d) && IsNormal(d) && !IsNativeDataStuffed(d.type_) {
      EncodedSize(d.type_, d.nElements, BitsBytes(Cell(d, mem)), e);
    }
  }

  lemma Positive(a: nat, b: nat)
    requires a > 0 && b > 0
    ensures a * b > 0
  {
  }

  lemma AfterEntrySize(out: seq<bool>, d: SubIdxDescr, mem: seq<bool>, e: Endian)
    requires Fits(d, |mem|)
    ensures |AfterEntry(out, d, mem, e)| == Behind(|out|, d) && out <= AfterEntry(out, d, mem, e)
  {
    hide Segment, AlignUp, Pad;
    if !IsEmpty(d) {
      SegmentSize(d, mem, e);
      ExtendedGrows(out, !IsDataTypeBitBased(d.type_), Segment(d, mem, e));
    }
  }

  /** Complete read emits exactly the bits that the table adds up to. */
  lemma {:induction false} ImageSize(out: seq<bool>, ds: seq<SubIdxDescr>, mem: seq<bool>, e: Endian)
    requires AllFit(ds, |mem|)
    ensures |Image(out, ds, mem, e)| == StreamBits(|out|, ds) && out <= Image(out, ds, mem, e)
    decreases |ds|
  {
    hide AfterEntry, Behind, Fits;
    if ds != [] {
      AfterEntrySize(out, ds[0], mem, e);
      ImageSize(AfterEntry(out, ds[0], mem, e), ds[1..], mem, e);
    }
  }

  /** From a byte boundary the size does not depend on the position. */
  lemma {:induction false} StreamBitsShift(a: nat, pos: nat, ds: seq<SubIdxDescr>)
    requires a % 8 == 0
    ensures StreamBits(a + pos, ds) == a + StreamBits(pos, ds)
    decreases |ds|
  {
    hide AlignUp, Pad;
    if ds != [] {
      AlignShift(a, pos);
      StreamBitsShift(a, Behind(pos, ds[0]), ds[1..]);
    }
  }

  lemma AlignShift(a: nat, pos: nat)
    requires a % 8 == 0
    ensures AlignUp(a + pos) == a + AlignUp(pos)
  {
    assert (a + pos) % 8 == pos % 8;
  }

  lemma {:induction false} PutAllIs(out: seq<bool>, cap: nat, ds: seq<SubIdxDescr>, mem: seq<bool>, e: Endian)
    requires AllFit(ds, |mem|) && |out| <= cap
    ensures PutAll(Writing(out, cap), ds, mem, e) ==
            if StreamBits(|out|, ds) <= cap then (Writing(Image(out, ds, mem, e), cap), Ok) else (WriteFailed, FullError)
    decreases |ds|
  {
    hide Segment, Behind, Fits, Put, Extended;
    if ds != [] {
      var a := AfterEntry(out, ds[0], mem, e);
      AfterEntrySize(out, ds[0], mem, e);
      if !IsEmpty(ds[0]) { PutIs(out, cap, !IsDataTypeBitBased(ds[0].type_), Segment(ds[0], mem, e)); }
      if |a| <= cap {
        PutAllIs(a, cap, ds[1..], mem, e);
      } else {
        ImageSize(a, ds[1..], mem, e);
      }
    }
  }

  /** Complete write consumes exactly the bits that the table adds up to, or the stream is too short. */
  lemma {:induction false} GetAllConsumes(bits: seq<bool>, pos: nat, ds: seq<SubIdxDescr>, temp: seq<bool>, e: Endian)
    requires AllFit(ds, |temp|) && pos <= |bits|
    ensures var c := GetAll(Reading(bits, pos), ds, temp, e);
            if StreamBits(pos, ds) <= |bits| then c.rd == Reading(bits, StreamBits(pos, ds)) && c.st == Ok
            else c.rd == ReadFailed && c.st == EmptyError
    decreases |ds|
  {
    hide Stored, Fits, AlignUp, Pad;
    if ds != [] {
      var d := ds[0];
      StreamBitsGrow(Behind(pos, d), ds[1..]);
      if IsEmpty(d) {
        GetAllConsumes(bits, pos, ds[1..], temp, e);
      } else {
        assert d.nElements * BitLength(d.type_) > 0 by { Nonzero(d, |temp|); }
        var f := Get(Reading(bits, pos), !IsDataTypeBitBased(d.type_), d.nElements * BitLength(d.type_));
        if f.st == Ok {
          GetAllConsumes(bits, Behind(pos, d), ds[1..], Stored(d, temp, f.val, e), e);
        }
      }
    }
  }

  lemma Nonzero(d: SubIdxDescr, nBits: nat)
    requires Fits(d, nBits) && !IsEmpty(d)
    ensures d.nElements * BitLength(d.type_) > 0
  {
    Positive(d.nElements, BitLength(d.type_));
  }

  lemma {:induction false} StreamBitsGrow(pos: nat, ds: seq<SubIdxDescr>)
    ensures pos <= StreamBits(pos, ds)
    decreases |ds|
  {
    hide Pad;
    if ds != [] { StreamBitsGrow(Behind(pos, ds[0]), ds[1..]); }
  }
}
