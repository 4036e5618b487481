/**
 When access to RECORD and ARRAY objects is refused, in terms of attributes and permissions: bits 0x407 of both are for
 reading, bits 0x38 for writing.
 */
module AccessRights {
  import opened UInt
  import opened StreamSpec
  import opened MemStreamReaders
  import opened StreamReaderBase
  import opened DataTypes
  import opened ObjectCodec
  import opened RecordSpec
  import opened ObjectRecords
  import opened ObjectArrays
  import BitMemory

  /** Something with these attributes may be accessed under some permissions, but not under these. */
  predicate Denied(attributes: nat, mask: nat, permissions: nat)
  {
    And(attributes, mask) != 0 && And(And(attributes, mask), permissions) == 0
  }

  /** An entry of a RECORD that is not empty is denied. */
  ghost predicate AnyDenied(ds: seq<SubIdxDescr>, mask: nat, permissions: nat)
  {
    exists i :: 0 <= i < |ds| && ds[i].nElements != 0 && Denied(ds[i].attributes, mask, permissions)
  }

  // ---------------------------------------------------------------- RECORD

  /** Complete read is refused exactly if it includes SI0 and the permissions are not for reading, or if some entry is
      denied; only then the callback decides. */
  lemma CompleteReadRights(w: Writer, ds: seq<SubIdxDescr>, mem: seq<bool>, inclSI0: bool, SI016Bits: bool, permissions: nat,
                           beforeRead: SDOAbortCode, e: Endian)
    requires AllFit(ds, |mem|)
    ensures var refused := (inclSI0 && And(permissions, 0x407) == 0) || AnyDenied(ds, 0x407, permissions);
            var (w1, o) := CompleteReadSpec(w, ds, mem, inclSI0, SI016Bits, permissions, beforeRead, e);
            && (refused ==> w1 == w && o == Done(AttemptToReadWrOnlyObject))
            && (!refused && beforeRead != OK ==> w1 == w && o == Done(beforeRead))
            && (!refused && beforeRead == OK ==> o == Done(OK) || o.Threw?)
  {
    hide AllFit, PutAll, And, BytesBits, Ordered, LeBytes, Put;
  }

  /** Complete write is refused exactly if some entry is denied, before anything is read from the stream. */
  lemma CompleteWriteRights(r: Reader, ds: seq<SubIdxDescr>, mem: seq<bool>, inclSI0: bool, SI016Bits: bool, permissions: nat,
                            ernob: Expectation, beforeWrite: SDOAbortCode, e: Endian)
    requires AllFit(ds, |mem|)
    ensures var t := CompleteWriteSpec(r, ds, mem, inclSI0, SI016Bits, permissions, ernob, beforeWrite, e);
            && (AnyDenied(ds, 0x38, permissions) ==> t == WriteResult(r, mem, Done(AttemptToWriteRdOnlyObject)))
            && (!AnyDenied(ds, 0x38, permissions) && beforeWrite != AttemptToWriteRdOnlyObject ==>
                  t.out != Done(AttemptToWriteRdOnlyObject))
  {
    hide AllFit, GetAll, Updated, And, FetchBytes, IntValue, BitsBytes, Const, Consumed;
  }

  /** The callback is asked where the write would succeed, and then its veto is the outcome. */
  lemma CompleteWriteVeto(r: Reader, ds: seq<SubIdxDescr>, mem: seq<bool>, inclSI0: bool, SI016Bits: bool, permissions: nat,
                          ernob: Expectation, veto: SDOAbortCode, e: Endian)
    requires AllFit(ds, |mem|) && veto != OK
    ensures var t := CompleteWriteSpec(r, ds, mem, inclSI0, SI016Bits, permissions, ernob, OK, e);
            CompleteWriteSpec(r, ds, mem, inclSI0, SI016Bits, permissions, ernob, veto, e) ==
            if t.out == Done(OK) then WriteResult(t.rd, mem, Done(veto)) else t
  {
    hide AllFit, GetAll, Updated, And, FetchBytes, IntValue, BitsBytes, Const, Consumed, WriteAllowed;
  }

  /** A transmitted SI0 other than the number of subindices is refused. */
  lemma WrongSI0(bits: seq<bool>, pos: nat, n: nat, ds: seq<SubIdxDescr>, mem: seq<bool>, SI016Bits: bool, permissions: nat,
                 ernob: Expectation, beforeWrite: SDOAbortCode, e: Endian)
    requires AllFit(ds, |mem|) && pos % 8 == 0 && !AnyDenied(ds, 0x38, permissions)
    requires n != |ds| && n < (if SI016Bits then 0x1_0000 else 0x100)
    requires pos + (if SI016Bits then 16 else 8) <= |bits|
    requires Digits(BitsBytes(bits[pos..pos + if SI016Bits then 16 else 8]), n, if SI016Bits then 2 else 1, e)
    ensures var t := CompleteWriteSpec(Reading(bits, pos), ds, mem, true, SI016Bits, permissions, ernob, beforeWrite, e);
            t.mem == mem && t.out == Done(UnsupportedAccessToObject)
  {
    hide AllFit, And, BitsBytes, Digits, IntValue, AlignUp, Pad, WriteDataSpec, WriteAllowed;
    CompleteWriteRights(Reading(bits, pos), ds, mem, true, SI016Bits, permissions, ernob, OK, e);
    var k := SI0Size(SI016Bits);
    AlignedSum(pos, 0);
    ValueOfDigits(BitsBytes(bits[pos..pos + 8 * k]), n, k, e);
  }

  lemma ValueOfDigits(d: seq<byte>, n: nat, k: nat, e: Endian)
    requires k in {1, 2} && n < (if k == 2 then 0x1_0000 else 0x100) && Digits(d, n, k, e)
    ensures IntValue(d, e) == n
  {
    hide Ordered, LeBytes, LeValue;
    var v := Ordered(LeBytes(n, k), e);
    OrderedDigits(n, k, e);
    assert v == d;
    assert Pow2(8) == 256;
    Pow2Byte(8);
    IntRoundTrip(n, k, e);
  }

  /** Single read of a RECORD: which subindices exist, who may read them, and when the callback decides. */
  lemma ReadRights(w: Writer, ds: seq<SubIdxDescr>, mem: seq<bool>, subIdx: nat, permissions: nat, beforeRead: SDOAbortCode, e: Endian)
    requires AllFit(ds, |mem|) && |ds| < 256
    ensures var (w1, o) := ReadSpec(w, ds, mem, subIdx, permissions, beforeRead, e);
            if subIdx > |ds| || (subIdx > 0 && ds[subIdx - 1].nElements == 0) then
              w1 == w && o == Done(SubindexDoesNotExist)
            else if And(if subIdx == 0 then 0x407 else And(ds[subIdx - 1].attributes, 0x407), permissions) == 0 then
              w1 == w && o == Done(AttemptToReadWrOnlyObject)
            else if beforeRead != OK && (subIdx == 0 || !ds[subIdx - 1].type_.NullType?) then
              w1 == w && o == Done(beforeRead)
            else
              o == Done(OK) || o.Threw?
  {
    hide AllFit, PushBytes, PushRun, SingleSegment, Put, And;
    AndCommutes(permissions, 0x407);
  }

  lemma {:induction false} AndCommutes(a: nat, b: nat)
    ensures And(a, b) == And(b, a)
    decreases a
  {
    if a > 0 && b > 0 { AndCommutes(a / 2, b / 2); }
  }

  /** Single write of a RECORD: the same, and SI0 is read-only; a veto counts where the write would succeed. */
  lemma WriteRights(r: Reader, ds: seq<SubIdxDescr>, mem: seq<bool>, subIdx: nat, permissions: nat, beforeWrite: SDOAbortCode, e: Endian)
    requires AllFit(ds, |mem|)
    ensures var t, u := WriteSpec(r, ds, mem, subIdx, permissions, beforeWrite, e), WriteSpec(r, ds, mem, subIdx, permissions, OK, e);
            if subIdx > |ds| || (subIdx > 0 && ds[subIdx - 1].nElements == 0) then
              t == WriteResult(r, mem, Done(SubindexDoesNotExist))
            else if subIdx == 0 || And(And(ds[subIdx - 1].attributes, 0x38), permissions) == 0 then
              t == WriteResult(r, mem, Done(AttemptToWriteRdOnlyObject))
            else if beforeWrite != OK && !ds[subIdx - 1].type_.NullType? then
              t == if u.out == Done(OK) then WriteResult(u.rd, mem, Done(beforeWrite)) else u
            else
              t == u && (u.out in {Done(OK), Done(DataTypeMismatchTooSmall), Done(DataTypeMismatchTooLong)} || u.out.Threw?)
  {
    hide AllFit, FetchRun, ReadNative, Consumed, BitMemory.Splice, NativeToCell, And;
  }

  // ---------------------------------------------------------------- ARRAY

  /** Complete read of an ARRAY with SI0: SI0 and, if there are elements, the data must be readable with the permissions;
      without SI0 an empty array is read without asking. */
  lemma CompleteReadRightsOfArray(w: Writer, a: ArrayDescr, s: ArrayState, inclSI0: bool, SI016Bits: bool, permissions: nat,
                                  beforeRead: SDOAbortCode, e: Endian)
    requires ValidState(a, s)
    ensures 8 * NativeSize(a.type_, s.si0) <= |s.mem|
    ensures var refused := (inclSI0 && And(And(a.attributesSI0, 0x407), permissions) == 0)
                           || (s.si0 != 0 && Denied(a.attributes, 0x407, permissions));
            var (w1, o) := ArrayCompleteRead(w, a, s, inclSI0, SI016Bits, permissions, beforeRead, e);
            && (refused ==> w1 == w && o == Done(AttemptToReadWrOnlyObject))
            && (!refused && !inclSI0 && s.si0 == 0 ==> w1 == w && o == Done(OK))
            && (!refused && (inclSI0 || s.si0 != 0) && beforeRead != OK ==> w1 == w && o == Done(beforeRead))
            && (!refused && beforeRead == OK ==> o == Done(OK) || o.Threw?)
  {
    hide And, NativeSize, PushBytes, Put, ArrayImage, Ordered, LeBytes, BitLength, DataBits;
    SizeMono(a.type_, s.si0, a.maxSI0);
  }

  /** Complete write of an ARRAY is refused if SI0 is part of it and is denied, before anything is read; and if there are
      elements in the stream, or in the object, and the data is denied, with nothing changed. Else it is never refused as
      read-only. */
  lemma CompleteWriteRightsOfArray(r: Reader, a: ArrayDescr, s: ArrayState, inclSI0: bool, SI016Bits: bool, permissions: nat,
                                   ernob: Expectation, beforeWrite: SDOAbortCode, e: Endian)
    requires ArrayType(a.type_)
    ensures var t := ArrayCompleteWrite(r, a, s, inclSI0, SI016Bits, permissions, ernob, beforeWrite, e);
            var f := FetchBytes(r, if inclSI0 then SI0Size(SI016Bits) else 0);
            var n := if inclSI0 then IntValue(BitsBytes(f.val), e) else s.si0;
            && (inclSI0 && Denied(a.attributesSI0, 0x38, permissions) ==>
                  t == ArrayWriteResult(r, s, Done(AttemptToWriteRdOnlyObject)))
            && (!(inclSI0 && Denied(a.attributesSI0, 0x38, permissions)) && f.st == Ok ==>
                  if inclSI0 && And(a.attributesSI0, 0x38) == 0 && n != s.si0 then
                    t == ArrayWriteResult(f.rd, s, Done(UnsupportedAccessToObject))
                  else if inclSI0 && And(a.attributesSI0, 0x38) != 0 && n < a.minSI0 then
                    t == ArrayWriteResult(f.rd, s, Done(ValueTooLow))
                  else if inclSI0 && And(a.attributesSI0, 0x38) != 0 && n > a.maxSI0 then
                    t == ArrayWriteResult(f.rd, s, Done(ValueTooHigh))
                  else if n != 0 && Denied(a.attributes, 0x38, permissions) then
                    t == ArrayWriteResult(f.rd, s, Done(AttemptToWriteRdOnlyObject))
                  else
                    beforeWrite != AttemptToWriteRdOnlyObject ==> t.out != Done(AttemptToWriteRdOnlyObject))
  {
    hide And, Get, IntValue, BitsBytes, FetchBytes, ArrayStored, BitLength, Consumed, WriteElements, ArrayType;
    var f := FetchBytes(r, if inclSI0 then SI0Size(SI016Bits) else 0);
    if f.st == Ok {
      ElementsOutcome(f.rd, a, s, if inclSI0 then IntValue(BitsBytes(f.val), e) else s.si0, ernob, beforeWrite, e);
    }
  }

  lemma ElementsOutcome(r: Reader, a: ArrayDescr, s: ArrayState, n: nat, ernob: Expectation, beforeWrite: SDOAbortCode, e: Endian)
    requires ArrayType(a.type_)
    ensures var t := WriteElements(r, a, s, n, ernob, beforeWrite, e);
            beforeWrite != AttemptToWriteRdOnlyObject ==> t.out != Done(AttemptToWriteRdOnlyObject)
  {
    hide And, Get, ArrayStored, BitLength, Consumed, ArrayType;
  }

  /** The callback is asked where the write would succeed, and then its veto is the outcome. */
  lemma CompleteWriteVetoOfArray(r: Reader, a: ArrayDescr, s: ArrayState, inclSI0: bool, SI016Bits: bool, permissions: nat,
                                 ernob: Expectation, veto: SDOAbortCode, e: Endian)
    requires ArrayType(a.type_) && veto != OK
    ensures var t := ArrayCompleteWrite(r, a, s, inclSI0, SI016Bits, permissions, ernob, OK, e);
            ArrayCompleteWrite(r, a, s, inclSI0, SI016Bits, permissions, ernob, veto, e) ==
            if t.out == Done(OK) then ArrayWriteResult(t.rd, s, Done(veto)) else t
  {
    hide And, Get, IntValue, BitsBytes, FetchBytes, ArrayStored, BitLength, Consumed, CheckSI0;
  }

  /** Single read of an ARRAY. */
  lemma ReadRightsOfArray(w: Writer, a: ArrayDescr, s: ArrayState, subIdx: nat, permissions: nat, beforeRead: SDOAbortCode, e: Endian)
    requires ArrayType(a.type_) && s.si0 < 256
    ensures var (w1, o) := ArrayRead(w, a, s, subIdx, permissions, beforeRead, e);
            if subIdx > s.si0 then
              w1 == w && o == Done(SubindexDoesNotExist)
            else if And(And(if subIdx == 0 then a.attributesSI0 else a.attributes, 0x407), permissions) == 0 then
              w1 == w && o == Done(AttemptToReadWrOnlyObject)
            else if beforeRead != OK then
              w1 == w && o == Done(beforeRead)
            else
              && (o == Done(OK) || o.Threw?)
              && (subIdx == 0 && o == Done(OK) && w.Writing? ==> w1.Writing? && w1.out == Aligned(w.out) + BytesBits([s.si0]))
  {
    hide And, Put, ElementToStream, Element, BytesBits, ToBits, Aligned;
    if s.si0 < 256 { BytesBitsOne(s.si0); }
  }

  /** Single write of an ARRAY. */
  lemma WriteRightsOfArray(r: Reader, a: ArrayDescr, s: ArrayState, subIdx: nat, permissions: nat, beforeWrite: SDOAbortCode, e: Endian)
    requires ArrayType(a.type_)
    ensures var t := ArrayWrite(r, a, s, subIdx, permissions, beforeWrite, e);
            && (t.out != Done(OK) ==> t.s == s)
            && if subIdx > s.si0 then
                 t == ArrayWriteResult(r, s, Done(SubindexDoesNotExist))
               else if And(And(if subIdx == 0 then a.attributesSI0 else a.attributes, 0x38), permissions) == 0 then
                 t == ArrayWriteResult(r, s, Done(AttemptToWriteRdOnlyObject))
               else
                 beforeWrite !in {SubindexDoesNotExist, AttemptToWriteRdOnlyObject} ==>
                   t.out !in {Done(SubindexDoesNotExist), Done(AttemptToWriteRdOnlyObject)}
  {
    hide And, Get, Fetch, Consumed, BitLength, PutElement, FromBits, Decoded, IsDataTypeBitBased, IsNativeDataStuffed, BytesBits;
  }

  /** The callback is asked where the write would succeed, and then its veto is the outcome. */
  lemma WriteVetoOfArray(r: Reader, a: ArrayDescr, s: ArrayState, subIdx: nat, permissions: nat, veto: SDOAbortCode, e: Endian)
    requires ArrayType(a.type_) && veto != OK
    ensures var u := ArrayWrite(r, a, s, subIdx, permissions, OK, e);
            ArrayWrite(r, a, s, subIdx, permissions, veto, e) ==
            if u.out == Done(OK) then ArrayWriteResult(u.rd, s, Done(veto)) else u
  {
    hide And, Get, Fetch, Consumed, BitLength, PutElement, FromBits, Decoded, IsDataTypeBitBased, IsNativeDataStuffed, BytesBits;
  }

  /** SI0 takes the value sent, if it is in its bounds. */
  lemma WriteSI0OfArray(r: Reader, a: ArrayDescr, s: ArrayState, permissions: nat, e: Endian)
    requires ArrayType(a.type_) && And(And(a.attributesSI0, 0x38), permissions) != 0
    ensures SI0Written(r, a, s, ArrayWrite(r, a, s, 0, permissions, OK, e))
  {
    hide And, Get, Fetch, Consumed, BitLength, PutElement, FromBits, Decoded, FetchBytes, BitsBytes, ArrayType;
    NextByte(r);
  }

  lemma NextByte(r: Reader)
    ensures FetchBytes(r, 1) == Fetch(r, true, 8)
    ensures var f := FetchBytes(r, 1); f.st == Ok ==> BitsBytes(f.val)[0] == FromBits(f.val)
  {
    hide FromBits, AlignUp, Pad;
    var f := FetchBytes(r, 1);
    if f.st == Ok { assert f.val[..8] == f.val; }
  }

  /** Outcome and state of a write of the next byte of the stream to SI0. */
  ghost predicate SI0Written(r: Reader, a: ArrayDescr, s: ArrayState, u: ArrayWriteResult)
  {
    var f := FetchBytes(r, 1);
    if f.st != Ok then u.out == StreamError(f.st)
    else if Consumed(f.rd, SevenOrLess) != Ok then u.out == StreamError(Consumed(f.rd, SevenOrLess))
    else
      var n := BitsBytes(f.val)[0];
      if n < a.minSI0 then u.out == Done(ValueTooLow)
      else if n > a.maxSI0 then u.out == Done(ValueTooHigh)
      else u.out == Done(OK) && u.s.si0 == n && u.s.mem == s.mem
  }
}
