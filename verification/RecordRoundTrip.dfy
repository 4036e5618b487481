/**
 A complete read of one RECORD followed by a complete write to another RECORD with the same subindex table.
 */
module RecordRoundTrip {
  import opened UInt
  import opened StreamSpec
  import opened StreamWriterBase
  import opened StreamReaderBase
  import opened DataTypes
  import opened ObjectCodec
  import opened BitMemory
  import opened RecordSpec

  /** The native cell that arrives at the other side: write-only data zero, packed data unchanged, all other data as the
      codec normalises it. */
  function Arriving(d: SubIdxDescr, mem: seq<bool>): (r: seq<bool>)
    requires Fits(d, |mem|) && IsNormal(d)
    ensures |r| == CellBits(d)
  {
    if !Readable(d) then Const(CellBits(d), false)
    else if IsNativeDataStuffed(d.type_) then Cell(d, mem)
    else
      NormalisedSize(d.type_, d.nElements, BitsBytes(Cell(d, mem)));
      BytesBits(Normalised(d.type_, d.nElements, BitsBytes(Cell(d, mem))))
  }

  /** A cell of A and what B gets for it: zeros for write-only data, the same bits for packed data, and for all other types
      what a trip through the stream makes of the native data. */
  ghost predicate Delivered(d: SubIdxDescr, sent: seq<bool>, got: seq<bool>)
  {
    && |got| == |sent|
    && (And(d.attributes, 0x407) == 0 ==> forall j :: 0 <= j < |got| ==> !got[j])
    && (And(d.attributes, 0x407) != 0 ==>
          if d.type_.BitN? || d.type_.BooleanNativeBit1? then got == sent
          else Arrived(d.type_, d.nElements, BitsBytes(sent), BitsBytes(got)))
  }

  lemma ArrivingIs(d: SubIdxDescr, mem: seq<bool>)
    requires Fits(d, |mem|) && IsNormal(d)
    ensures Delivered(d, Cell(d, mem), Arriving(d, mem))
  {
    hide BytesBits, BitsBytes, Normalised, Arrived, And;
    if Readable(d) && !IsNativeDataStuffed(d.type_) {
      var native := BitsBytes(Cell(d, mem));
      NormalisedArrives(d.type_, d.nElements, native);
      BytesRoundTrip(Normalised(d.type_, d.nElements, native));
    }
  }

  lemma NormalisedSize(t: DataType, n: nat, d: seq<byte>)
    requires !t.NullType? && !t.Unsupported? && |d| == NativeSize(t, n)
    ensures |Normalised(t, n, d)| == NativeSize(t, n)
  {
    hide BytesBits, PackBits, ZeroFilled;
  }

  lemma {:induction false} ZeroBytes(n: nat)
    ensures BytesBits(Repeat(0, n)) == Const(8 * n, false)
  {
    if n > 0 {
      ZeroBytes(n - 1);
      AllOnes(8);
      assert Repeat(0, n)[1..] == Repeat(0, n - 1);
    }
  }

  lemma {:induction false} ZeroBools(n: nat)
    ensures BitsBools(Const(n, false)) == Repeat(0, n)
  {
    if n > 0 {
      ZeroBools(n - 1);
      assert Const(n, false)[1..] == Const(n - 1, false);
    }
  }

  lemma {:induction false} ZeroInts(k: nat, n: nat, e: Endian)
    ensures IntsBytes(IntValues(Repeat(0, n * k), k, n, e), k, Little) == Repeat(0, n * k)
    decreases n
  {
    hide LeBytes, IntValue, IntsBytes, IntValues;
    if n > 0 {
      FirstInt(Repeat(0, n * k), k, n, e);
      RepeatSplit(0, k, (n - 1) * k);
      ZeroInt(k, e);
      ZeroInts(k, n - 1, e);
    } else {
      NoInts(k, e);
    }
  }

  lemma FirstInt(d: seq<byte>, k: nat, n: nat, e: Endian)
    requires n > 0 && |d| == n * k
    ensures n * k == k + (n - 1) * k && k <= |d|
    ensures IntsBytes(IntValues(d, k, n, e), k, Little) ==
            LeBytes(IntValue(d[..k], e), k) + IntsBytes(IntValues(d[k..], k, n - 1, e), k, Little)
  {
    hide LeBytes, IntValue;
    assert n * k == k + (n - 1) * k;
    var vs := IntValues(d, k, n, e);
    assert vs[1..] == IntValues(d[k..], k, n - 1, e);
  }

  lemma NoInts(k: nat, e: Endian)
    ensures IntsBytes(IntValues(Repeat(0, 0 * k), k, 0, e), k, Little) == Repeat(0, 0 * k)
  {
  }

  lemma {:induction false} RepeatSplit(c: byte, a: nat, b: nat)
    ensures Repeat(c, a + b) == Repeat(c, a) + Repeat(c, b)
  {
    if a > 0 { RepeatSplit(c, a - 1, b); }
  }

  lemma ZeroInt(k: nat, e: Endian)
    ensures LeBytes(IntValue(Repeat(0, k), e), k) == Repeat(0, k)
  {
    hide LeValue, LeBytes;
    LeValueRange(Repeat(0, k));
    ReverseRepeat(k);
  }

  lemma {:induction false} ReverseRepeat(k: nat)
    ensures Reverse(Repeat(0, k)) == Repeat(0, k)
  {
    if k > 0 {
      ReverseRepeat(k - 1);
      RepeatSplit(0, k - 1, 1);
      assert Repeat(0, 1) == [0];
    }
  }

  /** The zeros sent for a write-only subindex are decoded as zeros. */
  lemma DecodedZeros(t: DataType, n: nat, e: Endian)
    requires !IsNativeDataStuffed(t) && !t.Unsupported?
    ensures Decoded(t, n, Const(n * BitLength(t), false), e) == Repeat(0, NativeSize(t, n))
  {
    hide BytesBits, BitsBytes, IntsBytes, IntValues, Repeat, StringLen, Const;
    if t.Boolean? {
      ZeroBools(n);
    } else {
      SizeOf(t, n);
      ZeroBytes(n * Width(t));
      BytesRoundTrip(Repeat(0, n * Width(t)));
      ZeroInts(Width(t), n, e);
      assert t.VisibleString? ==> ZeroFilled(Repeat(0, n)) == Repeat(0, n);
    }
  }

  lemma SegmentArrives(d: SubIdxDescr, mem: seq<bool>, e: Endian)
    requires Fits(d, |mem|) && IsNormal(d)
    ensures |Segment(d, mem, e)| == d.nElements * BitLength(d.type_)
    ensures StreamToCell(d, Segment(d, mem, e), e) == Arriving(d, mem)
  {
    hide BytesBits, BitsBytes, Encoded, Decoded, Const, Normalised;
    SegmentSize(d, mem, e);
    if !IsNativeDataStuffed(d.type_) {
      if Readable(d) {
        DecodeEncoded(d.type_, d.nElements, BitsBytes(Cell(d, mem)), e);
      } else {
        DecodedZeros(d.type_, d.nElements, e);
        ZeroBytes(NativeSize(d.type_, d.nElements));
      }
    }
  }

  /** temp with the arriving cells of all writeable subindices. */
  function Merged(temp: seq<bool>, ds: seq<SubIdxDescr>, mem: seq<bool>): (r: seq<bool>)
    requires |temp| == |mem| && AllFit(ds, |mem|)
    ensures |r| == |mem|
    decreases |ds|
  {
    if ds == [] then temp
    else if IsNormal(ds[0]) && Writeable(ds[0]) then Merged(Splice(temp, Lo(ds[0]), Arriving(ds[0], mem)), ds[1..], mem)
    else Merged(temp, ds[1..], mem)
  }

  lemma {:induction false} GetBackAll(bits: seq<bool>, out: seq<bool>, ds: seq<SubIdxDescr>, mem: seq<bool>, temp: seq<bool>, e: Endian)
    requires AllFit(ds, |mem|) && |temp| == |mem| && Image(out, ds, mem, e) <= bits
    ensures GetAll(Reading(bits, |out|), ds, temp, e) ==
            Collected(Reading(bits, |Image(out, ds, mem, e)|), Ok, Merged(temp, ds, mem))
    decreases |ds|
  {
    hide Segment, Extended, Get, StreamToCell, Arriving, Splice;
    if ds != [] {
      var d, a := ds[0], AfterEntry(out, ds[0], mem, e);
      ImageSize(a, ds[1..], mem, e);
      if IsEmpty(d) {
        GetBackAll(bits, out, ds[1..], mem, temp, e);
      } else {
        SegmentSize(d, mem, e);
        GetBack(bits, out, !IsDataTypeBitBased(d.type_), Segment(d, mem, e));
        if IsNormal(d) { SegmentArrives(d, mem, e); }
        GetBackAll(bits, a, ds[1..], mem, Stored(d, temp, Segment(d, mem, e), e), e);
      }
    }
  }

  // ---------------------------------------------------------------- disjoint cells

  lemma SpliceAt(mem: seq<bool>, lo: nat, v: seq<bool>)
    requires lo + |v| <= |mem|
    ensures Splice(mem, lo, v)[lo..lo + |v|] == v
  {
  }

  lemma SpliceAway(mem: seq<bool>, lo: nat, v: seq<bool>, a: nat, n: nat)
    requires lo + |v| <= |mem| && a + n <= |mem| && (lo + |v| <= a || a + n <= lo)
    ensures Splice(mem, lo, v)[a..a + n] == mem[a..a + n]
  {
  }

  /** No writeable cell of ds meets the bits a..a + n. */
  ghost predicate Away(ds: seq<SubIdxDescr>, a: nat, n: nat)
  {
    forall i :: 0 <= i < |ds| && IsNormal(ds[i]) && Writeable(ds[i]) ==> Lo(ds[i]) + CellBits(ds[i]) <= a || a + n <= Lo(ds[i])
  }

  lemma {:induction false} MergedAway(temp: seq<bool>, ds: seq<SubIdxDescr>, mem: seq<bool>, a: nat, n: nat)
    requires |temp| == |mem| && AllFit(ds, |mem|) && a + n <= |mem| && Away(ds, a, n)
    ensures Merged(temp, ds, mem)[a..a + n] == temp[a..a + n]
    decreases |ds|
  {
    hide Arriving, Splice, Fits;
    if ds != [] {
      if IsNormal(ds[0]) && Writeable(ds[0]) {
        assert Fits(ds[0], |mem|);
        FitsRange(ds[0], |mem|);
        SpliceAway(temp, Lo(ds[0]), Arriving(ds[0], mem), a, n);
        MergedAway(Splice(temp, Lo(ds[0]), Arriving(ds[0], mem)), ds[1..], mem, a, n);
      } else {
        MergedAway(temp, ds[1..], mem, a, n);
      }
    }
  }

  lemma FitsRange(d: SubIdxDescr, nBits: nat)
    requires Fits(d, nBits) && IsNormal(d)
    ensures Lo(d) + CellBits(d) <= nBits
  {
  }

  lemma HeadAway(ds: seq<SubIdxDescr>)
    requires DisjointRanges(ds) && ds != [] && IsNormal(ds[0])
    ensures Away(ds[1..], Lo(ds[0]), CellBits(ds[0]))
  {
    hide Lo, CellBits;
  }

  lemma {:induction false} MergedCell(temp: seq<bool>, ds: seq<SubIdxDescr>, mem: seq<bool>, i: nat)
    requires |temp| == |mem| && AllFit(ds, |mem|) && DisjointRanges(ds)
    requires i < |ds| && IsNormal(ds[i]) && Writeable(ds[i])
    ensures Fits(ds[i], |mem|) && Cell(ds[i], Merged(temp, ds, mem)) == Arriving(ds[i], mem)
    decreases |ds|
  {
    hide Arriving, Splice, CellBits, Lo;
    var t := if IsNormal(ds[0]) && Writeable(ds[0]) then Splice(temp, Lo(ds[0]), Arriving(ds[0], mem)) else temp;
    if i > 0 {
      MergedCell(t, ds[1..], mem, i - 1);
    } else {
      SpliceAt(temp, Lo(ds[0]), Arriving(ds[0], mem));
      HeadAway(ds);
      MergedAway(t, ds[1..], mem, Lo(ds[0]), CellBits(ds[0]));
    }
  }

  lemma {:induction false} CopiedAway(mem: seq<bool>, ds: seq<SubIdxDescr>, temp: seq<bool>, a: nat, n: nat)
    requires |temp| == |mem| && AllFit(ds, |mem|) && a + n <= |mem| && Away(ds, a, n)
    ensures Copied(mem, ds, temp)[a..a + n] == mem[a..a + n]
    decreases |ds|
  {
    hide Splice, Fits;
    if ds != [] {
      if IsNormal(ds[0]) && Writeable(ds[0]) {
        assert Fits(ds[0], |mem|);
        FitsRange(ds[0], |mem|);
        SpliceAway(mem, Lo(ds[0]), Cell(ds[0], temp), a, n);
        CopiedAway(Splice(mem, Lo(ds[0]), Cell(ds[0], temp)), ds[1..], temp, a, n);
      } else {
        CopiedAway(mem, ds[1..], temp, a, n);
      }
    }
  }

  lemma CopiedFirst(mem: seq<bool>, ds: seq<SubIdxDescr>, temp: seq<bool>)
    requires |temp| == |mem| && AllFit(ds, |mem|) && ds != []
    ensures Fits(ds[0], |mem|) && AllFit(ds[1..], |mem|)
    ensures Copied(mem, ds, temp) ==
            Copied(if IsNormal(ds[0]) && Writeable(ds[0]) then Splice(mem, Lo(ds[0]), Cell(ds[0], temp)) else mem, ds[1..], temp)
  {
    hide Fits, Cell, Splice;
  }

  lemma {:induction false} CopiedCell(mem: seq<bool>, ds: seq<SubIdxDescr>, temp: seq<bool>, i: nat)
    requires |temp| == |mem| && AllFit(ds, |mem|) && DisjointRanges(ds)
    requires i < |ds| && IsNormal(ds[i])
    ensures Fits(ds[i], |mem|)
    ensures Cell(ds[i], Copied(mem, ds, temp)) == if Writeable(ds[i]) then Cell(ds[i], temp) else Cell(ds[i], mem)
    decreases |ds|
  {
    hide Splice, CellBits, Lo, Copied;
    CopiedFirst(mem, ds, temp);
    if i > 0 {
      var m := if IsNormal(ds[0]) && Writeable(ds[0]) then Splice(mem, Lo(ds[0]), Cell(ds[0], temp)) else mem;
      if IsNormal(ds[0]) && Writeable(ds[0]) {
        SpliceAway(mem, Lo(ds[0]), Cell(ds[0], temp), Lo(ds[i]), CellBits(ds[i]));
      }
      CopiedCell(m, ds[1..], temp, i - 1);
    } else {
      CopiedHead(mem, ds, temp);
    }
  }

  lemma CopiedHead(mem: seq<bool>, ds: seq<SubIdxDescr>, temp: seq<bool>)
    requires |temp| == |mem| && AllFit(ds, |mem|) && DisjointRanges(ds) && ds != [] && IsNormal(ds[0])
    ensures Fits(ds[0], |mem|)
    ensures Cell(ds[0], Copied(mem, ds, temp)) == if Writeable(ds[0]) then Cell(ds[0], temp) else Cell(ds[0], mem)
  {
    hide Splice, CellBits, Lo, Copied;
    CopiedFirst(mem, ds, temp);
    HeadAway(ds);
    if Writeable(ds[0]) {
      SpliceAt(mem, Lo(ds[0]), Cell(ds[0], temp));
      CopiedAway(Splice(mem, Lo(ds[0]), Cell(ds[0], temp)), ds[1..], temp, Lo(ds[0]), CellBits(ds[0]));
    } else {
      CopiedAway(mem, ds[1..], temp, Lo(ds[0]), CellBits(ds[0]));
    }
  }

  /** Every writeable cell is as it is delivered from A, and every other one as it was before. */
  ghost predicate CellsArrive(ds: seq<SubIdxDescr>, memA: seq<bool>, before: seq<bool>, after: seq<bool>)
    requires |memA| == |before| == |after| && AllFit(ds, |memA|)
  {
    forall i :: 0 <= i < |ds| && IsNormal(ds[i]) ==>
      if And(ds[i].attributes, 0x38) != 0 then Delivered(ds[i], Cell(ds[i], memA), Cell(ds[i], after))
      else Cell(ds[i], after) == Cell(ds[i], before)
  }

  /** The complete write of what a complete read of memA emitted behind `out`: it succeeds and leaves memory B with every
      writeable cell as it arrives from A and every read-only cell as it was. */
  lemma Transfer(out: seq<bool>, ds: seq<SubIdxDescr>, memA: seq<bool>, memB: seq<bool>, bits: seq<bool>, e: Endian)
    requires |memA| == |memB| && AllFit(ds, |memA|) && DisjointRanges(ds)
    requires Image(out, ds, memA, e) <= bits
    ensures var c := GetAll(Reading(bits, |out|), ds, Const(|memB|, false), e);
            && c.st == Ok && c.rd == Reading(bits, StreamBits(|out|, ds))
            && CellsArrive(ds, memA, memB, Updated(memB, ds, c.temp))
  {
    hide Image, GetAll, Merged, Copied, Cell, Arriving, CellBits, Lo, And, Delivered;
    var temp := Const(|memB|, false);
    GetBackAll(bits, out, ds, memA, temp, e);
    ImageSize(out, ds, memA, e);
    var t := Merged(temp, ds, memA);
    forall i | 0 <= i < |ds| && IsNormal(ds[i])
      ensures if And(ds[i].attributes, 0x38) != 0 then Delivered(ds[i], Cell(ds[i], memA), Cell(ds[i], Updated(memB, ds, t)))
              else Cell(ds[i], Updated(memB, ds, t)) == Cell(ds[i], memB)
    {
      CopiedCell(memB, ds, t, i);
      if Writeable(ds[i]) { MergedCell(temp, ds, memA, i); }
      ArrivingIs(ds[i], memA);
    }
  }
}
