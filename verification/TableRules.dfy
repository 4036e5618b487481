/**
 Which subindex tables a RECORD accepts, stated with the sizes of the types in bits and bytes and without the running state
 of the constructor.
 */
module TableRules {
  import opened UInt
  import opened DataTypes
  import opened ObjectCodec
  import opened RecordSpec

  /** An entry that describes nothing. */
  predicate Nothing(d: SubIdxDescr)
  {
    d.type_.NullType? && d.nElements == 0 && !d.hasName && d.attributes == 0 && d.byteOffset == 0 && d.bitOffset == 0
  }

  /** A gap of some bits in the stream. */
  predicate Gap(d: SubIdxDescr)
  {
    d.type_.NullType? && d.nElements > 0 && d.hasName && And(d.attributes, 0x43F) != 0 && d.byteOffset == 0 && d.bitOffset == 0
  }

  /** One to eight bits anywhere in the structure. */
  predicate PackedData(d: SubIdxDescr, structSize: nat)
  {
    && (d.type_.BitN? || d.type_.BooleanNativeBit1?) && d.nElements == 1 && d.hasName && And(d.attributes, 0x43F) != 0
    && d.bitOffset <= 7 && 8 * d.byteOffset + d.bitOffset + PackedBitsOf(d.type_) <= 8 * structSize
  }

  /** Whole bytes of the structure: one number or boolean, or a string that takes at most 65534 bits. */
  predicate ByteData(d: SubIdxDescr, structSize: nat)
  {
    && !d.type_.NullType? && !d.type_.Unsupported? && !d.type_.BitN? && !d.type_.BooleanNativeBit1?
    && d.hasName && And(d.attributes, 0x43F) != 0 && d.nElements > 0
    && (if d.type_.VisibleString? || d.type_.OctetString? then 8 * d.nElements <= 0xFFFE
        else if d.type_.UnicodeString? then 16 * d.nElements <= 0xFFFE
        else d.nElements == 1)
    && d.bitOffset == 0 && d.byteOffset + d.nElements * ElementBytes(d.type_) <= structSize
  }

  lemma EntryRules(d: SubIdxDescr, structSize: nat)
    ensures WellDescribed(d, structSize) <==>
            Nothing(d) || Gap(d) || PackedData(d, structSize) || ByteData(d, structSize)
  {
    hide And;
    ElementLength(d.type_);
    if IsArrayType(d.type_) { StringRule(d.type_, d.nElements); }
    if !d.type_.NullType? && !d.type_.Unsupported? && !IsNativeDataStuffed(d.type_) { WholeBytes(ElementBytes(d.type_), d.nElements); }
  }

  lemma ElementLength(t: DataType)
    ensures !t.NullType? && !t.Unsupported? && !IsNativeDataStuffed(t) ==> NativeBitLength(t) == 8 * ElementBytes(t)
    ensures t.BitN? || t.BooleanNativeBit1? ==> BitLength(t) == PackedBitsOf(t)
  {
  }

  lemma StringRule(t: DataType, n: nat)
    requires IsArrayType(t)
    ensures n <= 0xFFFE / BitLength(t) <==> (if t.UnicodeString? then 16 * n else 8 * n) <= 0xFFFE
  {
  }

  lemma WholeBytes(k: nat, n: nat)
    ensures 8 * k * n / 8 == n * k
  {
    assert 8 * k * n == 8 * (n * k);
  }

  /** The last entry before i that is not empty is a gap. */
  ghost predicate BehindGap(ds: seq<SubIdxDescr>, i: nat)
    requires i <= |ds|
  {
    exists g :: 0 <= g < i && Gap(ds[g]) && forall k :: g < k < i ==> Nothing(ds[k])
  }

  /** The tables that are accepted: structures of at most 64 KiB; entries of the four kinds; no gap behind a gap; byte-based
      data behind a gap starts on a byte boundary of the stream; and a mutex, if anything can be written. */
  lemma AcceptedTables(ds: seq<SubIdxDescr>, structSize: nat, hasMutex: bool)
    ensures AcceptedTable(ds, structSize, hasMutex) <==>
            && structSize <= 65536
            && (forall i :: 0 <= i < |ds| ==>
                  Nothing(ds[i]) || Gap(ds[i]) || PackedData(ds[i], structSize) || ByteData(ds[i], structSize))
            && (forall i :: 0 <= i < |ds| && BehindGap(ds, i) ==>
                  && !Gap(ds[i])
                  && (ByteData(ds[i], structSize) && !ds[i].type_.Boolean? ==> StreamBits(0, ds[..i]) % 8 == 0))
            && ((exists i :: 0 <= i < |ds| && !ds[i].type_.NullType? && And(ds[i].attributes, 0x38) != 0) ==> hasMutex)
  {
    hide And, Nothing, Gap, PackedData, ByteData, WellDescribed, BehindGap, GapRule, StreamBits;
    forall i | 0 <= i < |ds|
      ensures WellDescribed(ds[i], structSize) <==>
              Nothing(ds[i]) || Gap(ds[i]) || PackedData(ds[i], structSize) || ByteData(ds[i], structSize)
    {
      EntryRules(ds[i], structSize);
    }
    if forall i :: 0 <= i < |ds| ==> WellDescribed(ds[i], structSize) {
      forall i | 0 <= i < |ds|
        ensures GapRule(ds, i) <==>
                (BehindGap(ds, i) ==>
                  && !Gap(ds[i])
                  && (ByteData(ds[i], structSize) && !ds[i].type_.Boolean? ==> StreamBits(0, ds[..i]) % 8 == 0))
      {
        GapRuleIs(ds, structSize, i);
      }
    }
  }

  lemma Kinds(d: SubIdxDescr, structSize: nat)
    requires WellDescribed(d, structSize)
    ensures (IsEmpty(d) && d.type_.NullType? <==> Nothing(d)) && (IsGap(d) <==> Gap(d)) && !(Nothing(d) && Gap(d))
    ensures IsNormal(d) && !IsDataTypeBitBased(d.type_) <==> ByteData(d, structSize) && !d.type_.Boolean?
  {
    hide And;
    EntryRules(d, structSize);
  }

  lemma GapRuleIs(ds: seq<SubIdxDescr>, structSize: nat, i: nat)
    requires i < |ds| && forall k :: 0 <= k < |ds| ==> WellDescribed(ds[k], structSize)
    ensures GapRule(ds, i) <==>
            (BehindGap(ds, i) ==>
               && !Gap(ds[i])
               && (ByteData(ds[i], structSize) && !ds[i].type_.Boolean? ==> StreamBits(0, ds[..i]) % 8 == 0))
  {
    hide Gap, ByteData, WellDescribed, BehindGap, EndsWithGap, StreamBits, IsGap, IsNormal, IsDataTypeBitBased;
    Kinds(ds[i], structSize);
    LastIsGap(ds, structSize, i);
  }

  lemma {:induction false} LastIsGap(ds: seq<SubIdxDescr>, structSize: nat, i: nat)
    requires i <= |ds| && forall k :: 0 <= k < |ds| ==> WellDescribed(ds[k], structSize)
    ensures EndsWithGap(ds[..i]) <==> BehindGap(ds, i)
    decreases i
  {
    hide Gap, Nothing, WellDescribed, IsGap, IsEmpty;
    if i > 0 {
      var d := ds[i - 1];
      Kinds(d, structSize);
      assert ds[..i][..i - 1] == ds[..i - 1] && ds[..i][i - 1] == d;
      LastIsGap(ds, structSize, i - 1);
      BehindStep(ds, i);
    }
  }

  lemma BehindStep(ds: seq<SubIdxDescr>, i: nat)
    requires 0 < i <= |ds|
    ensures BehindGap(ds, i) <==> Gap(ds[i - 1]) || (Nothing(ds[i - 1]) && BehindGap(ds, i - 1))
  {
    hide Gap, Nothing;
    if Nothing(ds[i - 1]) && BehindGap(ds, i - 1) { StillBehind(ds, i); }
    if BehindGap(ds, i) {
      var g :| 0 <= g < i && Gap(ds[g]) && forall k :: g < k < i ==> Nothing(ds[k]);
      assert g < i - 1 ==> Nothing(ds[i - 1]) && forall k :: g < k < i - 1 ==> Nothing(ds[k]);
    }
  }

  lemma StillBehind(ds: seq<SubIdxDescr>, i: nat)
    requires 0 < i <= |ds| && Nothing(ds[i - 1]) && BehindGap(ds, i - 1)
    ensures BehindGap(ds, i)
  {
    hide Gap, Nothing;
    var g :| 0 <= g < i - 1 && Gap(ds[g]) && forall k :: g < k < i - 1 ==> Nothing(ds[k]);
    assert forall k :: g < k < i ==> Nothing(ds[k]);
  }
}
