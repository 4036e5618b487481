/**
 What complete access to RECORD objects promises: sizes, error codes, and the transfer from one object to another.
 */
module RecordTheorems {
  import opened UInt
  import opened StreamSpec
  import opened MemStreamWriters
  import opened MemStreamReaders
  import opened StreamReaderBase
  import opened DataTypes
  import opened ObjectCodec
  import opened RecordSpec
  import opened RecordRoundTrip
  import opened ObjectRecords
  import opened StreamWriterBase
  import BitMemory

  /** Bits of SI0 in the stream. */
  function SI0Bits(inclSI0: bool, SI016Bits: bool): (n: nat)
    ensures n % 8 == 0
  {
    if inclSI0 then 8 * SI0Size(SI016Bits) else 0
  }

  /** The stream in front of subindex 1. */
  function Head(out: seq<bool>, n: nat, inclSI0: bool, SI016Bits: bool, e: Endian): seq<bool>
  {
    if inclSI0 then Extended(out, true, BytesBits(Ordered(LeBytes(n, SI0Size(SI016Bits)), e))) else out
  }

  lemma HeadSize(out: seq<bool>, n: nat, inclSI0: bool, SI016Bits: bool, e: Endian)
    requires |out| % 8 == 0
    ensures |Head(out, n, inclSI0, SI016Bits, e)| == |out| + SI0Bits(inclSI0, SI016Bits)
    ensures out <= Head(out, n, inclSI0, SI016Bits, e)
  {
    hide BytesBits, LeBytes;
    ExtendedGrows(out, true, BytesBits(Ordered(LeBytes(n, SI0Size(SI016Bits)), e)));
    assert AlignUp(|out|) == |out|;
  }

  /** With sufficient permissions, complete read from a byte boundary succeeds exactly when the object fits, and then
      emits SI0 and exactly the bits the constructor added up. */
  lemma CompleteReadSize(out: seq<bool>, cap: nat, ds: seq<SubIdxDescr>, mem: seq<bool>, inclSI0: bool, SI016Bits: bool,
                         permissions: nat, e: Endian)
    requires AllFit(ds, |mem|) && |out| % 8 == 0 && |out| <= cap
    requires ReadAllowed(ds, permissions) && (inclSI0 ==> And(permissions, ATTR_ACCESS_RD) != 0)
    ensures var h := Head(out, |ds|, inclSI0, SI016Bits, e);
            var size := SI0Bits(inclSI0, SI016Bits) + StreamBits(0, ds);
            && |Image(h, ds, mem, e)| == |out| + size
            && CompleteReadSpec(Writing(out, cap), ds, mem, inclSI0, SI016Bits, permissions, OK, e) ==
               if |out| + size <= cap then (Writing(Image(h, ds, mem, e), cap), Done(OK)) else (WriteFailed, Threw(FullError))
  {
    hide BytesBits, LeBytes, Ordered, Fits, StreamBits, Image, PutAll, And, ReadAllowed, Extended, Put;
    var h := Head(out, |ds|, inclSI0, SI016Bits, e);
    HeadSize(out, |ds|, inclSI0, SI016Bits, e);
    StreamBitsShift(|h|, 0, ds);
    ImageSize(h, ds, mem, e);
    PutIs(out, cap, true, BytesBits(Ordered(LeBytes(|ds|, SI0Size(SI016Bits)), e)));
    if |h| <= cap { PutAllIs(h, cap, ds, mem, e); }
  }

  /** What the stream holds for one subindex: zeros for gaps and write-only data, the bits of packed data, and all other
      data in the format and byte order of the stream. */
  ghost predicate EntrySent(d: SubIdxDescr, mem: seq<bool>, e: Endian, s: seq<bool>)
    requires Fits(d, |mem|)
  {
    if d.type_.NullType? || And(d.attributes, 0x407) == 0 then forall j :: 0 <= j < |s| ==> !s[j]
    else if d.type_.BitN? || d.type_.BooleanNativeBit1? then s == Cell(d, mem)
    else Sent(d.type_, d.nElements, BitsBytes(Cell(d, mem)), e, s)
  }

  lemma SegmentSends(d: SubIdxDescr, mem: seq<bool>, e: Endian)
    requires Fits(d, |mem|)
    ensures EntrySent(d, mem, e, Segment(d, mem, e))
  {
    hide BytesBits, BitsBytes, And, Encoded, Sent;
    if Readable(d) && IsNormal(d) && !IsNativeDataStuffed(d.type_) {
      EncodedSends(d.type_, d.nElements, BitsBytes(Cell(d, mem)), e);
    }
  }

  function EntryBits(d: SubIdxDescr): nat { d.nElements * BitLength(d.type_) }

  /** The data of one subindex in the stream: behind p, byte-based data on the next byte boundary, and zeros before it. */
  ghost predicate EntryAt(img: seq<bool>, p: nat, d: SubIdxDescr, mem: seq<bool>, e: Endian)
    requires Fits(d, |mem|)
  {
    var q := if d.type_.NullType? || d.type_.Boolean? || d.type_.BitN? || d.type_.BooleanNativeBit1? then p else AlignUp(p);
    && q + EntryBits(d) <= |img|
    && (forall j :: p <= j < q ==> !img[j])
    && EntrySent(d, mem, e, img[q..q + EntryBits(d)])
  }

  /** Where a complete read puts subindex i + 1, and what it puts there. */
  lemma {:induction false} EntryInStream(out: seq<bool>, ds: seq<SubIdxDescr>, mem: seq<bool>, e: Endian, i: nat)
    requires AllFit(ds, |mem|) && i < |ds| && ds[i].nElements != 0
    ensures Fits(ds[i], |mem|) && EntryAt(Image(out, ds, mem, e), StreamBits(|out|, ds[..i]), ds[i], mem, e)
    decreases |ds|
  {
    hide Fits, EntryAt, AlignUp, Pad, AfterEntry, Behind;
    var a := AfterEntry(out, ds[0], mem, e);
    AfterEntrySize(out, ds[0], mem, e);
    ImageSize(a, ds[1..], mem, e);
    if i > 0 {
      EntryInStream(a, ds[1..], mem, e, i - 1);
      assert ds[..i][1..] == ds[1..][..i - 1] && ds[..i][0] == ds[0];
    } else {
      FirstEntry(out, ds[0], mem, e, Image(out, ds, mem, e));
    }
  }

  lemma FirstEntry(out: seq<bool>, d: SubIdxDescr, mem: seq<bool>, e: Endian, img: seq<bool>)
    requires Fits(d, |mem|) && d.nElements != 0 && AfterEntry(out, d, mem, e) <= img
    ensures EntryAt(img, |out|, d, mem, e)
  {
    hide Segment, Fits, EntrySent, AlignUp, Pad, BitLength;
    var a, seg := AfterEntry(out, d, mem, e), Segment(d, mem, e);
    SegmentSize(d, mem, e);
    SegmentSends(d, mem, e);
    AlignedId(out);
    var q := if IsDataTypeBitBased(d.type_) then |out| else AlignUp(|out|);
    assert a[q..q + |seg|] == seg;
    assert img[q..q + |seg|] == a[q..q + |seg|];
    forall j | |out| <= j < q ensures !img[j] { assert img[j] == a[j]; }
  }

  /** With sufficient permissions, willing callback and the right SI0, complete write from a byte boundary succeeds, or
      reports exactly whether the stream is too short or too long; only success changes the native data. */
  lemma CompleteWriteOutcome(bits: seq<bool>, pos: nat, ds: seq<SubIdxDescr>, mem: seq<bool>, inclSI0: bool, SI016Bits: bool,
                             permissions: nat, ernob: Expectation, e: Endian)
    requires AllFit(ds, |mem|) && pos % 8 == 0 && pos <= |bits| && WriteAllowed(ds, permissions)
    requires inclSI0 && pos + SI0Bits(true, SI016Bits) <= |bits| ==>
               IntValue(BitsBytes(bits[pos..pos + SI0Bits(true, SI016Bits)]), e) == |ds|
    ensures var need := pos + SI0Bits(inclSI0, SI016Bits) + StreamBits(0, ds);
            var w := CompleteWriteSpec(Reading(bits, pos), ds, mem, inclSI0, SI016Bits, permissions, ernob, OK, e);
            && w.out == (if |bits| < need then Done(DataTypeMismatchTooSmall)
                         else if Consumed(Reading(bits, need), ernob) == Ok then Done(OK)
                         else Done(DataTypeMismatchTooLong))
            && (ernob == SevenOrLess ==> (w.out == Done(DataTypeMismatchTooLong) <==> |bits| >= need + 8))
            && (w.out != Done(OK) ==> w.mem == mem)
  {
    hide BytesBits, BitsBytes, IntValue, AllFit, StreamBits, WriteDataSpec, And, WriteAllowed, FetchBytes, Consumed;
    var p := pos + SI0Bits(inclSI0, SI016Bits);
    FetchAt(bits, pos, if inclSI0 then SI0Size(SI016Bits) else 0);
    StreamBitsGrow(0, ds);
    if p <= |bits| { WriteDataOutcome(bits, p, ds, mem, ernob, e); }
  }

  lemma FetchAt(bits: seq<bool>, pos: nat, n: nat)
    requires pos % 8 == 0 && pos <= |bits|
    ensures FetchBytes(Reading(bits, pos), n) ==
            if pos + 8 * n <= |bits| then Fetched(Reading(bits, pos + 8 * n), Ok, bits[pos..pos + 8 * n])
            else Fetched(ReadFailed, EmptyError, [])
  {
    hide Get;
    GetAt(bits, pos, true, 8 * n);
  }

  lemma GetAt(bits: seq<bool>, pos: nat, align: bool, n: nat)
    requires pos % 8 == 0 && pos <= |bits|
    ensures Get(Reading(bits, pos), align, n) ==
            if pos + n <= |bits| then Fetched(Reading(bits, pos + n), Ok, bits[pos..pos + n])
            else Fetched(ReadFailed, EmptyError, [])
  {
    hide AlignUp, Pad;
    AlignUpWhole(pos);
  }

  lemma WriteDataOutcome(bits: seq<bool>, p: nat, ds: seq<SubIdxDescr>, mem: seq<bool>, ernob: Expectation, e: Endian)
    requires AllFit(ds, |mem|) && p % 8 == 0 && p <= |bits|
    ensures var need := p + StreamBits(0, ds);
            var w := WriteDataSpec(Reading(bits, p), ds, mem, ernob, OK, e);
            && w.out == (if |bits| < need then Done(DataTypeMismatchTooSmall)
                         else if Consumed(Reading(bits, need), ernob) == Ok then Done(OK)
                         else Done(DataTypeMismatchTooLong))
            && (ernob == SevenOrLess ==> (w.out == Done(DataTypeMismatchTooLong) <==> |bits| >= need + 8))
            && (w.out != Done(OK) ==> w.mem == mem)
  {
    hide BytesBits, BitsBytes, Fits, StreamBits, GetAll, Updated, Const, AlignUp, Pad;
    StreamBitsShift(p, 0, ds);
    StreamBitsGrow(0, ds);
    GetAllConsumes(bits, p, ds, Const(|mem|, false), e);
  }

  /** Any refusal, stream error or callback veto leaves the native data as it was. */
  lemma RefusedLeavesDataAlone(r: Reader, ds: seq<SubIdxDescr>, mem: seq<bool>, inclSI0: bool, SI016Bits: bool,
                               permissions: nat, ernob: Expectation, beforeWrite: SDOAbortCode, e: Endian, subIdx: nat)
    requires AllFit(ds, |mem|)
    ensures var w := CompleteWriteSpec(r, ds, mem, inclSI0, SI016Bits, permissions, ernob, beforeWrite, e);
            w.out != Done(OK) ==> w.mem == mem
    ensures var w := WriteSpec(r, ds, mem, subIdx, permissions, beforeWrite, e); w.out != Done(OK) ==> w.mem == mem
  {
    hide CompleteWriteSpec, WriteSpec, AllFit;
    RefusedComplete(r, ds, mem, inclSI0, SI016Bits, permissions, ernob, beforeWrite, e);
    RefusedSingle(r, ds, mem, subIdx, permissions, beforeWrite, e);
  }

  lemma RefusedComplete(r: Reader, ds: seq<SubIdxDescr>, mem: seq<bool>, inclSI0: bool, SI016Bits: bool, permissions: nat,
                        ernob: Expectation, beforeWrite: SDOAbortCode, e: Endian)
    requires AllFit(ds, |mem|)
    ensures var w := CompleteWriteSpec(r, ds, mem, inclSI0, SI016Bits, permissions, ernob, beforeWrite, e);
            w.out != Done(OK) ==> w.mem == mem
  {
    hide BytesBits, BitsBytes, IntValue, GetAll, Updated, And, Consumed, Const, FetchBytes, WriteAllowed, AllFit;
  }

  lemma RefusedSingle(r: Reader, ds: seq<SubIdxDescr>, mem: seq<bool>, subIdx: nat, permissions: nat, beforeWrite: SDOAbortCode,
                      e: Endian)
    requires AllFit(ds, |mem|)
    ensures var w := WriteSpec(r, ds, mem, subIdx, permissions, beforeWrite, e); w.out != Done(OK) ==> w.mem == mem
  {
    hide And, Consumed, FetchRun, ReadNative, NativeToCell, Fits;
  }

  /** Complete read of one RECORD and complete write of the result, as an exactly sized stream, to another RECORD with
      the same table. */
  lemma CompleteTransfer(ds: seq<SubIdxDescr>, memA: seq<bool>, memB: seq<bool>, inclSI0: bool, SI016Bits: bool,
                         rdPermissions: nat, wrPermissions: nat, cap: nat, e: Endian)
    requires |memA| == |memB| && AllFit(ds, |memA|) && DisjointRanges(ds) && |ds| < 256
    requires ReadAllowed(ds, rdPermissions) && (inclSI0 ==> And(rdPermissions, ATTR_ACCESS_RD) != 0)
    requires WriteAllowed(ds, wrPermissions)
    requires SI0Bits(inclSI0, SI016Bits) + StreamBits(0, ds) <= cap
    ensures var (w, o) := CompleteReadSpec(Writing([], cap), ds, memA, inclSI0, SI016Bits, rdPermissions, OK, e);
            && o == Done(OK) && w.Writing?
            && var t := CompleteWriteSpec(Reading(Aligned(w.out), 0), ds, memB, inclSI0, SI016Bits, wrPermissions, SevenOrLess, OK, e);
            && t.out == Done(OK) && |t.mem| == |memB| && CellsArrive(ds, memA, memB, t.mem)
  {
    hide BytesBits, BitsBytes, LeBytes, Ordered, Fits, StreamBits, Image, Arriving, Cell, Const, And, Pow2, Aligned, Extended,
         WriteAllowed, ReadAllowed, Updated, GetAll, DisjointRanges, IntValue;
    CompleteReadSize([], cap, ds, memA, inclSI0, SI016Bits, rdPermissions, e);
    var h := Head([], |ds|, inclSI0, SI016Bits, e);
    var img := Image(h, ds, memA, e);
    var bits := Aligned(img);
    AlignedStarts(img);
    ImageSize(h, ds, memA, e);
    assert h <= bits;
    HeadBack(bits, |ds|, inclSI0, SI016Bits, e);
    RecordRoundTrip.Transfer(h, ds, memA, memB, bits, e);
  }

  lemma AlignedStarts(s: seq<bool>)
    ensures s <= Aligned(s) && |Aligned(s)| - |s| <= 7
  {
    AlignedId(s);
    assert Aligned(s)[..|s|] == s;
  }

  lemma HeadBack(bits: seq<bool>, n: nat, inclSI0: bool, SI016Bits: bool, e: Endian)
    requires n < 256 && Head([], n, inclSI0, SI016Bits, e) <= bits
    ensures var f := FetchBytes(Reading(bits, 0), if inclSI0 then SI0Size(SI016Bits) else 0);
            && f.st == Ok && f.rd == Reading(bits, |Head([], n, inclSI0, SI016Bits, e)|)
            && (inclSI0 ==> IntValue(BitsBytes(f.val), e) == n)
  {
    hide BytesBits, BitsBytes, LeBytes, Ordered, IntValue, Get, Pow2, Extended;
    if inclSI0 {
      var k := SI0Size(SI016Bits);
      var d := Ordered(LeBytes(n, k), e);
      GetBack(bits, [], true, BytesBits(d));
      BytesRoundTrip(d);
      SmallValue(n, k);
      IntRoundTrip(n, k, e);
    } else {
      assert FetchBytes(Reading(bits, 0), 0) == Fetched(Reading(bits, 0), Ok, []) by { NoBytesFetched(Reading(bits, 0)); }
    }
  }

  lemma SmallValue(n: nat, k: nat)
    requires n < 256 && k >= 1
    ensures n < Pow2(8 * k)
  {
    assert Pow2(8) == 256;
    Pow2Mono(8, 8 * k);
  }

  /** Complete read through a writer on a block of memory; data is what is left there when the writer has been closed. */
  method ReadToMemory(a: ObjectRECORD, buffer: array<byte>, inclSI0: bool, SI016Bits: bool, permissions: nat, e: Endian)
    returns (out: Outcome, data: seq<byte>)
    requires a.Valid() && buffer != a.pStruct
    modifies buffer
    ensures a.Valid() && AllFit(a.ds, |a.Mem()|) && a.Mem() == old(a.Mem())
    ensures var (w, o) := CompleteReadSpec(Writing([], 8 * buffer.Length), a.ds, a.Mem(), inclSI0, SI016Bits, permissions, OK, e);
            out == o && (w.Writing? ==> BytesBits(data) == Aligned(w.out))
  {
    hide BytesBits, ToBits, FromBits, BitsBytes, AcceptedTable, CompleteReadSpec, AllFit, Aligned, And, ObjectRECORD.Valid,
         MemStreamWriter.Valid;
    data := [];
    ghost var m := a.pStruct[..];
    var w := new MemStreamWriter(buffer, e);
    out := a.CompleteRead(inclSI0, SI016Bits, permissions, OK, w);
    ghost var final := w.Abs();
    w.Close();
    if w.pMem <= w.buffer.Length { data := w.buffer[..w.pMem]; }
    if final.Writing? { assert w.buffer[..][..w.pMem] == data; }
    assert a.pStruct[..] == m;
  }

  /** The same with two objects and a block of memory in between. */
  method CopyObject(a: ObjectRECORD, b: ObjectRECORD, buffer: array<byte>, inclSI0: bool, SI016Bits: bool,
                    rdPermissions: nat, wrPermissions: nat, e: Endian)
    returns (out: Outcome)
    requires a.Valid() && b.Valid() && a.ds == b.ds && a.structSize == b.structSize && DisjointRanges(a.ds)
    requires buffer != a.pStruct && buffer != b.pStruct && a.pStruct != b.pStruct
    requires ReadAllowed(a.ds, rdPermissions) && (inclSI0 ==> And(rdPermissions, ATTR_ACCESS_RD) != 0)
    requires WriteAllowed(a.ds, wrPermissions)
    requires SI0Bits(inclSI0, SI016Bits) + a.streamSizeInBit <= 8 * buffer.Length
    modifies buffer, b.pStruct
    ensures a.Valid() && b.Valid() && a.Mem() == old(a.Mem()) && out == Done(OK)
    ensures AllFit(a.ds, |a.Mem()|)
    ensures CellsArrive(b.ds, a.Mem(), old(b.Mem()), b.Mem())
  {
    hide BytesBits, ToBits, FromBits, BitsBytes, AcceptedTable, CompleteReadSpec, CompleteWriteSpec, StreamBits, AllFit,
         Fits, Arriving, Cell, Aligned, DisjointRanges, WriteAllowed, ReadAllowed, And, CellsArrive, ObjectRECORD.Valid,
         MemStreamReader.Valid;
    a.TableFits();
    b.TableFits();
    CompleteTransfer(a.ds, a.Mem(), b.Mem(), inclSI0, SI016Bits, rdPermissions, wrPermissions, 8 * buffer.Length, e);
    ghost var ma, mb := a.pStruct[..], b.pStruct[..];
    var data;
    out, data := ReadToMemory(a, buffer, inclSI0, SI016Bits, rdPermissions, e);
    assert b.pStruct[..] == mb;
    var r := new MemStreamReader(data, if |data| == 0 then Null else At(0), |data|, e, 0);
    assert data[..|data|] == data;
    out := b.CompleteWrite(inclSI0, SI016Bits, wrPermissions, OK, r, SevenOrLess);
    assert a.pStruct[..] == ma;
  }

  // ---------------------------------------------------------------- single subindex access

  /** A visible string sent on its own arrives zero-filled behind its first NUL. */
  lemma StringArrives(d: seq<byte>, bits: seq<bool>, n: nat, e: Endian)
    requires |d| == n && n > 0 && bits == EncodedSingle(VisibleString, n, d, e)
    ensures CharsSent(d, bits)
    ensures var f := ReadVisibleString(Reading(bits, 0), n);
            && f.rd == Reading(bits, |bits|) && f.st == Ok
            && |f.native| == n && forall i :: 0 <= i < n ==> f.native[i] == if 0 in d[..i + 1] then 0 else d[i]
  {
    hide ZeroFilled, ReadVisibleString, BytesBits, BitsBytes, EncodedSingle;
    StringFilled(d, bits, n, e);
    StringSent(d, bits, n, e);
    forall i | 0 <= i < n ensures ZeroFilled(d)[i] == if 0 in d[..i + 1] then 0 else d[i] { ZeroFilledAt(d, i); }
  }

  /** Any characters that are left in the stream: at most n are taken; fewer are zero-filled behind the first NUL, or behind
      the last one. */
  lemma StringReceived(c: seq<byte>, n: nat)
    ensures var f := ReadVisibleString(Reading(BytesBits(c), 0), n);
            && f.st == Ok && f.rd == Reading(BytesBits(c), 8 * if |c| < n then |c| else n) && |f.native| == n
            && (|c| >= n ==> f.native == c[..n])
            && (|c| < n ==> forall i :: 0 <= i < n ==> f.native[i] == if i < |c| && 0 !in c[..i + 1] then c[i] else 0)
  {
    hide BytesBits, BitsBytes, RestBytes, ZeroFilled, Repeat, FetchBytes;
    WholeStream(c);
    var rb := if |c| > n then n else |c|;
    FrontBytes(c, rb);
    if |c| < n {
      var d := c + Repeat(0, n - |c|);
      forall i | 0 <= i < n ensures ZeroFilled(d)[i] == if i < |c| && 0 !in c[..i + 1] then c[i] else 0 {
        ZeroFilledAt(d, i);
        if i < |c| {
          assert d[..i + 1] == c[..i + 1];
        } else {
          RepeatAt(0, n - |c|, i - |c|);
        }
      }
      assert c[..|c|] == c;
    }
  }

  lemma FrontBytes(c: seq<byte>, k: nat)
    requires k <= |c|
    ensures var f := FetchBytes(Reading(BytesBits(c), 0), k);
            f.st == Ok && f.rd == Reading(BytesBits(c), 8 * k) && BitsBytes(f.val) == c[..k]
  {
    hide BytesBits, BitsBytes, Get, Extended;
    var a := BytesBits(c[..k]);
    assert c == c[..k] + c[k..];
    BytesBitsAppend(c[..k], c[k..]);
    FromEmpty(true, a);
    GetBack(BytesBits(c), [], true, a);
    BytesRoundTrip(c[..k]);
  }

  lemma StringSent(d: seq<byte>, bits: seq<bool>, n: nat, e: Endian)
    requires |d| == n && n > 0 && bits == EncodedSingle(VisibleString, n, d, e)
    ensures CharsSent(d, bits)
  {
    hide BytesBits, BitsBytes, StringLen;
    var k := StrnLen(d);
    var chars := d[..k] + if k < n then [0] else [];
    BytesRoundTrip(chars);
    if k < n { assert chars == d[..k + 1]; } else { assert chars == d[..n]; }
  }

  lemma StringFilled(d: seq<byte>, bits: seq<bool>, n: nat, e: Endian)
    requires |d| == n && n > 0 && bits == EncodedSingle(VisibleString, n, d, e)
    ensures |bits| % 8 == 0 && |bits| > 0
    ensures ReadVisibleString(Reading(bits, 0), n) == NativeRead(Reading(bits, |bits|), Ok, ZeroFilled(d))
  {
    hide BytesBits, BitsBytes, StringLen, Repeat, RestBytes, FetchBytes, ZeroFilled;
    var chars := d[..StrnLen(d)] + if StrnLen(d) < n then [0] else [];
    assert bits == BytesBits(chars);
    assert chars != [];
    WholeStream(chars);
    FilledAgain(d, chars, n);
  }

  lemma FilledAgain(d: seq<byte>, chars: seq<byte>, n: nat)
    requires |d| == n && chars == d[..StrnLen(d)] + if StrnLen(d) < n then [0] else []
    ensures |chars| <= n && (if |chars| < n then ZeroFilled(chars + Repeat(0, n - |chars|)) else chars) == ZeroFilled(d)
  {
    hide StringLen;
    var len := StrnLen(d);
    if |chars| < n {
      var f := chars + Repeat(0, n - |chars|);
      assert forall i :: 0 <= i < len ==> f[i] == d[i];
      assert f[len] == 0;
      assert StrnLen(f) == len;
      assert f[..len] == d[..len];
    } else if len < n {
      assert Repeat(0, n - len) == [0];
    }
  }

  /** What a single read sends for a visible string: its characters up to and including the first NUL. */
  ghost predicate CharsSent(d: seq<byte>, s: seq<bool>)
  {
    var chars := BitsBytes(s);
    && 0 < |chars| <= |d| && |s| == 8 * |chars| && chars == d[..|chars|] && (|chars| == |d| || d[|chars| - 1] == 0)
    && forall i :: 0 <= i < |chars| - 1 ==> d[i] != 0
  }

  /** What a successful single read of subindex i + 1 adds to the stream. */
  lemma ReadDelivers(out: seq<bool>, cap: nat, ds: seq<SubIdxDescr>, mem: seq<bool>, i: nat, permissions: nat, e: Endian)
    requires AllFit(ds, |mem|) && |ds| < 256 && i < |ds| && ds[i].nElements != 0 && |out| <= cap
    ensures Fits(ds[i], |mem|)
    ensures var (w, o) := ReadSpec(Writing(out, cap), ds, mem, i + 1, permissions, OK, e);
            o == Done(OK) ==>
              && w.Writing? && out <= w.out
              && if ds[i].type_.VisibleString? then
                   AlignUp(|out|) <= |w.out| && CharsSent(BitsBytes(Cell(ds[i], mem)), w.out[AlignUp(|out|)..])
                 else EntryAt(w.out, |out|, ds[i], mem, e) && |w.out| == Behind(|out|, ds[i])
  {
    hide AlignUp, Pad, EntryAt, CharsSent, SingleSegment, Segment, And, Put, PushRun, Behind, Fits;
    var d := ds[i];
    if IsGap(d) {
      GapRead(out, cap, d, mem, e);
    } else if And(And(d.attributes, ATTR_ACCESS_RD), permissions) != 0 {
      if d.type_.VisibleString? { StringRead(out, cap, d, mem, e); } else { DataRead(out, cap, d, mem, e); }
    }
  }

  lemma GapRead(out: seq<bool>, cap: nat, d: SubIdxDescr, mem: seq<bool>, e: Endian)
    requires Fits(d, |mem|) && IsGap(d) && |out| <= cap
    ensures var (w, st) := PushRun(Writing(out, cap), Const(d.nElements, false));
            st == Ok ==> w.Writing? && out <= w.out && EntryAt(w.out, |out|, d, mem, e) && |w.out| == Behind(|out|, d)
  {
    hide AlignUp, Pad, EntryAt, Behind, Put, Extended;
    PutIs(out, cap, false, Const(d.nElements, false));
    AfterEntrySize(out, d, mem, e);
    FirstEntry(out, d, mem, e, AfterEntry(out, d, mem, e));
  }

  lemma DataRead(out: seq<bool>, cap: nat, d: SubIdxDescr, mem: seq<bool>, e: Endian)
    requires Fits(d, |mem|) && IsNormal(d) && Readable(d) && !d.type_.VisibleString? && |out| <= cap
    ensures var (w, st) := Put(Writing(out, cap), !IsDataTypeBitBased(d.type_), SingleSegment(d, mem, e));
            st == Ok ==> w.Writing? && out <= w.out && EntryAt(w.out, |out|, d, mem, e) && |w.out| == Behind(|out|, d)
  {
    hide AlignUp, Pad, EntryAt, Behind, Put, Extended, SingleSegment, Segment, And;
    SingleIs(d, mem, e);
    PutIs(out, cap, !IsDataTypeBitBased(d.type_), Segment(d, mem, e));
    AfterEntrySize(out, d, mem, e);
    FirstEntry(out, d, mem, e, AfterEntry(out, d, mem, e));
  }

  lemma StringRead(out: seq<bool>, cap: nat, d: SubIdxDescr, mem: seq<bool>, e: Endian)
    requires Fits(d, |mem|) && IsNormal(d) && Readable(d) && d.type_.VisibleString? && |out| <= cap
    ensures var (w, st) := Put(Writing(out, cap), true, SingleSegment(d, mem, e));
            st == Ok ==>
              && w.Writing? && out <= w.out && AlignUp(|out|) <= |w.out|
              && CharsSent(BitsBytes(Cell(d, mem)), w.out[AlignUp(|out|)..])
  {
    hide AlignUp, Pad, Put, BytesBits, BitsBytes, EncodedSingle;
    var seg := SingleSegment(d, mem, e);
    SizeOf(VisibleString, d.nElements);
    StringSent(BitsBytes(Cell(d, mem)), seg, d.nElements, e);
    PutIs(out, cap, true, seg);
    AlignedId(out);
    assert Target(out, true, seg)[AlignUp(|out|)..] == seg;
    assert Target(out, true, seg)[..|out|] == out;
  }

  lemma NativeArrives(d: SubIdxDescr, mem: seq<bool>, e: Endian)
    requires Fits(d, |mem|) && IsNormal(d) && Readable(d) && 0 < |Aligned(SingleSegment(d, mem, e))|
    ensures var seg := SingleSegment(d, mem, e);
            var f := ReadNative(Reading(Aligned(seg), 0), d.type_, d.nElements, false, e);
            && f.st == Ok && f.rd == Reading(Aligned(seg), |seg|) && NativeToCell(d, f.native) == Arriving(d, mem)
  {
    hide BytesBits, BitsBytes, Encoded, EncodedSingle, Decoded, PackBits, Aligned, Get, Normalised, Extended, ReadVisibleString;
    var seg := SingleSegment(d, mem, e);
    var bits := Aligned(seg);
    AlignedStarts(seg);
    var native := BitsBytes(Cell(d, mem));
    if d.type_.VisibleString? {
      SizeOf(d.type_, d.nElements);
      StringFilled(native, seg, d.nElements, e);
      AlignedId(seg);
      StringNormal(native, d.nElements);
    } else {
      SingleIs(d, mem, e);
      SegmentSize(d, mem, e);
      FromEmpty(!IsDataTypeBitBased(d.type_), seg);
      GetBack(bits, [], !IsDataTypeBitBased(d.type_), seg);
      if IsNativeDataStuffed(d.type_) {
        PackedBits(seg);
        DecodedStuffed(d, seg, e);
      } else {
        DecodeEncoded(d.type_, d.nElements, native, e);
      }
    }
  }

  lemma StringNormal(native: seq<byte>, n: nat)
    requires |native| == n
    ensures NativeSize(VisibleString, n) == n && Normalised(VisibleString, n, native) == ZeroFilled(native)
  {
  }

  lemma SingleIs(d: SubIdxDescr, mem: seq<bool>, e: Endian)
    requires Fits(d, |mem|) && IsNormal(d) && Readable(d) && !d.type_.VisibleString?
    ensures SingleSegment(d, mem, e) == Segment(d, mem, e)
  {
    hide Encoded, BytesBits, BitsBytes;
  }

  lemma DecodedStuffed(d: SubIdxDescr, seg: seq<bool>, e: Endian)
    requires IsNormal(d) && IsNativeDataStuffed(d.type_) && |seg| == d.nElements * BitLength(d.type_)
    ensures Decoded(d.type_, d.nElements, seg, e) == PackBits(seg)
  {
    hide PackBits;
  }

  lemma SomeBits(d: SubIdxDescr, mem: seq<bool>, e: Endian)
    requires Fits(d, |mem|) && IsNormal(d) && Readable(d)
    ensures 0 < |SingleSegment(d, mem, e)|
  {
    hide BytesBits, BitsBytes, Encoded, StringLen;
    if d.type_.VisibleString? {
      SizeOf(d.type_, d.nElements);
    } else {
      SingleIs(d, mem, e);
      SegmentSize(d, mem, e);
    }
  }

  lemma OneCell(d: SubIdxDescr, mem: seq<bool>, v: seq<bool>)
    requires Fits(d, |mem|) && IsNormal(d) && |v| == CellBits(d)
    ensures var m := BitMemory.Splice(mem, Lo(d), v);
            && |m| == |mem| && Cell(d, m) == v
            && forall j :: 0 <= j < |mem| && !(Lo(d) <= j < Lo(d) + CellBits(d)) ==> m[j] == mem[j]
  {
    hide CellBits, Lo;
    SpliceAt(mem, Lo(d), v);
  }

  /** Read of one subindex and write of the result, as an exactly sized stream, to the same subindex of another RECORD:
      it succeeds, the cell arrives, and no other bit changes. */
  lemma SingleTransfer(ds: seq<SubIdxDescr>, i: nat, memA: seq<bool>, memB: seq<bool>, rdPermissions: nat, wrPermissions: nat,
                       cap: nat, e: Endian)
    requires |memA| == |memB| && AllFit(ds, |memA|) && |ds| < 256 && i < |ds| && IsNormal(ds[i])
    requires And(And(ds[i].attributes, ATTR_ACCESS_RD), rdPermissions) != 0
    requires And(And(ds[i].attributes, ATTR_ACCESS_WR), wrPermissions) != 0
    requires |SingleSegment(ds[i], memA, e)| <= cap
    ensures var (w, o) := ReadSpec(Writing([], cap), ds, memA, i + 1, rdPermissions, OK, e);
            && o == Done(OK) && w.Writing? && w.out == SingleSegment(ds[i], memA, e)
            && var t := WriteSpec(Reading(Aligned(w.out), 0), ds, memB, i + 1, wrPermissions, OK, e);
               && t.rd == Reading(Aligned(w.out), |w.out|) && t.out == Done(OK) && |t.mem| == |memB|
               && Delivered(ds[i], Cell(ds[i], memA), Cell(ds[i], t.mem))
               && forall j :: 0 <= j < |memB| && !(Lo(ds[i]) <= j < Lo(ds[i]) + CellBits(ds[i])) ==> t.mem[j] == memB[j]
  {
    hide SingleSegment, ReadNative, NativeToCell, Arriving, BitMemory.Splice, And, Aligned, Put, Extended, Delivered;
    var d := ds[i];
    ArrivingIs(d, memA);
    OneCell(d, memB, Arriving(d, memA));
    var seg := SingleSegment(d, memA, e);
    AlignedStarts(seg);
    SomeBits(d, memA, e);
    FromEmpty(!IsDataTypeBitBased(d.type_), seg);
    PutIs([], cap, !IsDataTypeBitBased(d.type_), seg);
    NativeArrives(d, memA, e);
  }
}
