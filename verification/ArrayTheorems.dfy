/**
 What access to ARRAY objects promises: single and complete access agree, writes change exactly what they address.
 */
module ArrayTheorems {
  import opened UInt
  import opened StreamSpec
  import opened MemStreamReaders
  import opened StreamWriterBase
  import opened StreamReaderBase
  import opened DataTypes
  import opened ObjectCodec
  import opened RecordSpec
  import opened ObjectRecords
  import opened ObjectArrays

  /** n elements of s from lo on, if there are as many. */
  function Part<T>(s: seq<T>, lo: nat, n: nat): seq<T>
  {
    if lo + n <= |s| then s[lo..lo + n] else []
  }

  /** Whether a stream of elements of type t holds n of them. */
  predicate Holds(t: DataType, n: nat, all: seq<bool>)
  {
    |all| == n * BitLength(t)
  }

  /** Bits (k - 1) * w .. k * w of stream data whose elements have w bits: element k, counted from 1. */
  function StreamElement(t: DataType, k: nat, all: seq<bool>): seq<bool>
  {
    if k > 0 then Part(all, (k - 1) * BitLength(t), BitLength(t)) else []
  }

  /** Stream data of the first n elements. */
  function EncodedElements(t: DataType, n: nat, mem: seq<bool>, e: Endian): seq<bool>
    requires ArrayType(t) && 8 * NativeSize(t, n) <= |mem|
  {
    Encoded(t, n, NativeOf(t, n, mem), e)
  }

  lemma Behind<T>(s: seq<T>, a: seq<T>, b: seq<T>, p: nat, w: nat)
    requires s == a + b && p + w <= |b|
    ensures s[|a| + p..|a| + p + w] == b[p..p + w]
  {
  }

  lemma {:induction false} SwappedAt(d: seq<byte>, w: nat, n: nat, e: Endian, i: nat)
    requires |d| == n * w && i < n
    ensures i * w + w <= n * w
    ensures Swapped(d, w, n, e)[i * w..i * w + w] == Swapped(d[i * w..i * w + w], w, 1, e)
    decreases n
  {
    hide Swapped;
    SwappedSplit(d, w, n, e);
    var rest := d[w..];
    if i > 0 {
      SwappedAt(rest, w, n - 1, e, i - 1);
      var p := (i - 1) * w;
      assert i * w == w + p;
      Behind(d, d[..w], rest, p, w);
      Behind(Swapped(d, w, n, e), Swapped(d[..w], w, 1, e), Swapped(rest, w, n - 1, e), p, w);
    } else {
      assert d[0 * w..0 * w + w] == d[..w];
    }
  }

  lemma SwappedSplit(d: seq<byte>, w: nat, n: nat, e: Endian)
    requires |d| == n * w && n > 0
    ensures w <= |d| && |d[w..]| == (n - 1) * w
    ensures Swapped(d, w, n, e) == Swapped(d[..w], w, 1, e) + Swapped(d[w..], w, n - 1, e)
  {
    hide LeBytes, LeValue, Ordered;
    assert n * w == w + (n - 1) * w;
    var v := IntValue(d[..w], Little);
    assert d[..w][..w] == d[..w] && d[..w][w..] == [];
    assert IntValues(d[..w], w, 1, Little) == [v] by { assert IntValues([], w, 0, Little) == []; }
    assert IntsBytes([v], w, e) == Ordered(LeBytes(v, w), e) by { assert [v][1..] == []; assert IntsBytes([], w, e) == []; }
    var vs := IntValues(d, w, n, Little);
    assert vs == [v] + IntValues(d[w..], w, n - 1, Little);
    assert vs[1..] == IntValues(d[w..], w, n - 1, Little);
  }

  lemma DataBitsAt(t: DataType, k: nat, n: nat)
    requires ArrayType(t) && 1 <= k <= n
    ensures DataBits(t, k - 1) <= DataBits(t, k) <= DataBits(t, n) <= 8 * NativeSize(t, n)
    ensures DataBits(t, k) == DataBits(t, k - 1) + DataBits(t, 1)
    ensures !IsNativeDataStuffed(t) ==>
              DataBits(t, k - 1) == 8 * ((k - 1) * NativeSize(t, 1)) && DataBits(t, 1) == 8 * NativeSize(t, 1)
              && NativeSize(t, n) == n * NativeSize(t, 1)
  {
    hide BitLength, NativeBitLength, NativeSize;
    SizeMono(t, k - 1, k);
    SizeMono(t, k, n);
    NativeBits(t, n);
    NativeBits(t, 1);
    NativeBits(t, k);
    NativeBits(t, k - 1);
    var w := BitLength(t);
    NextProduct(k, w);
    if !IsNativeDataStuffed(t) {
      var m := NativeSize(t, 1);
      assert NativeBitLength(t) == 8 * m;
      EightTimes(m, k);
      EightTimes(m, k - 1);
      EightTimes(m, n);
    }
  }

  lemma NextProduct(k: nat, w: nat)
    requires k > 0
    ensures k * w == (k - 1) * w + w
  {
  }

  /** Element k of what complete access encodes is what single access encodes. */
  lemma EncodedElement(t: DataType, n: nat, k: nat, mem: seq<bool>, e: Endian)
    requires ArrayType(t) && 1 <= k <= n && 8 * NativeSize(t, n) <= |mem|
    ensures Holds(t, n, EncodedElements(t, n, mem, e))
    ensures StreamElement(t, k, EncodedElements(t, n, mem, e)) == ElementToStream(t, Element(t, k, mem), e)
  {
    hide BytesBits, BitsBytes, Swapped, Encoded, NativeSize, DataBits, BitLength, IsNativeDataStuffed, Element, ElementToStream;
    EncodedSize(t, n, NativeOf(t, n, mem), e);
    if IsNativeDataStuffed(t) {
      PackedElementOf(t, n, k, mem, e);
    } else {
      ByteElementOf(t, n, k, mem, NativeOf(t, n, mem), e);
    }
  }

  lemma PackedElementOf(t: DataType, n: nat, k: nat, mem: seq<bool>, e: Endian)
    requires ArrayType(t) && IsNativeDataStuffed(t) && 1 <= k <= n && 8 * NativeSize(t, n) <= |mem|
    ensures StreamElement(t, k, EncodedElements(t, n, mem, e)) == ElementToStream(t, Element(t, k, mem), e)
  {
    hide BytesBits, BitsBytes, NativeSize;
    DataBitsAt(t, k, n);
    BitsRoundTrip(mem[..8 * NativeSize(t, n)]);
    var w := BitLength(t);
    assert EncodedElements(t, n, mem, e) == mem[..n * w];
    var p := (k - 1) * w;
    Inside(k, n, w);
    assert k * w == p + w;
    assert Part(mem[..n * w], p, w) == mem[p..p + w];
    assert Element(t, k, mem) == mem[p..p + w];
    assert StreamElement(t, k, mem[..n * w]) == mem[p..p + w];
    assert ElementToStream(t, Element(t, k, mem), e) == Element(t, k, mem);
  }

  lemma ByteElementOf(t: DataType, n: nat, k: nat, mem: seq<bool>, d: seq<byte>, e: Endian)
    requires ArrayType(t) && !IsNativeDataStuffed(t) && 1 <= k <= n && 8 * NativeSize(t, n) <= |mem|
    requires d == NativeOf(t, n, mem)
    ensures StreamElement(t, k, Encoded(t, n, d, e)) == ElementToStream(t, Element(t, k, mem), e)
  {
    hide BytesBits, BitsBytes, Swapped, NativeSize, DataBits, BoolBits, NativeBitLength, NativeOf, StreamElement, ElementToStream,
         BitLength, Encoded;
    var m, p := NativeSize(t, 1), (k - 1) * NativeSize(t, 1);
    var elem := d[p..p + m] by { DataBitsAt(t, k, n); Inside(k, n, m); }
    NativeElement(t, n, k, mem, m, p);
    if t.Boolean? {
      OneByte(t);
      assert |d| == n && (k - 1) * 1 == k - 1;
      FlagElement(d, k, elem, e);
    } else {
      OneByte(t);
      NumberElement(t, d, n, k, m, elem, e);
    }
    StreamOf(t, k, mem, elem, e);
  }

  lemma Inside(k: nat, n: nat, m: nat)
    requires 1 <= k <= n
    ensures (k - 1) * m + m <= n * m
  {
    assert n * m == (k - 1 + 1 + (n - k)) * m == (k - 1) * m + m + (n - k) * m;
  }

  /** Native bits of byte-based element k. */
  lemma NativeElement(t: DataType, n: nat, k: nat, mem: seq<bool>, m: nat, p: nat)
    requires ArrayType(t) && !IsNativeDataStuffed(t) && 1 <= k <= n && 8 * NativeSize(t, n) <= |mem|
    requires m == NativeSize(t, 1) && p == (k - 1) * m
    ensures p + m <= |NativeOf(t, n, mem)|
    ensures |Element(t, k, mem)| == 8 * m && BitsBytes(Element(t, k, mem)) == NativeOf(t, n, mem)[p..p + m]
  {
    hide BitsBytes, NativeSize, DataBits, NativeBitLength, BitLength;
    DataBitsAt(t, k, n);
    Inside(k, n, m);
    ElementIs(mem, n * m, p, m);
  }

  lemma StreamOf(t: DataType, k: nat, mem: seq<bool>, elem: seq<byte>, e: Endian)
    requires ArrayType(t) && !IsNativeDataStuffed(t) && k > 0 && |elem| == NativeSize(t, 1)
    requires |Element(t, k, mem)| == 8 * |elem| && BitsBytes(Element(t, k, mem)) == elem
    ensures ElementToStream(t, Element(t, k, mem), e) == Encoded(t, 1, elem, e)
  {
    hide BitsBytes, NativeSize, Encoded, Element;
  }

  lemma FlagElement(d: seq<byte>, k: nat, elem: seq<byte>, e: Endian)
    requires 1 <= k <= |d| && elem == d[k - 1..k]
    ensures StreamElement(Boolean, k, Encoded(Boolean, |d|, d, e)) == Encoded(Boolean, 1, elem, e)
  {
    hide BoolBits;
    BoolBitsAt(d, k - 1);
    BoolBitsAt(elem, 0);
    assert BoolBits(elem) == [BoolBits(elem)[0]];
    assert Part(BoolBits(d), k - 1, 1) == [BoolBits(d)[k - 1]];
  }

  lemma NumberElement(t: DataType, d: seq<byte>, n: nat, k: nat, m: nat, elem: seq<byte>, e: Endian)
    requires ArrayType(t) && !IsDataTypeBitBased(t) && 1 <= k <= n && |d| == n * m == NativeSize(t, n)
    requires m == Width(t) && BitLength(t) == 8 * m && NativeSize(t, 1) == m && (k - 1) * m + m <= |d|
    requires elem == d[(k - 1) * m..(k - 1) * m + m]
    ensures StreamElement(t, k, Encoded(t, n, d, e)) == Encoded(t, 1, elem, e)
  {
    hide BytesBits, Swapped, NativeSize, BitLength;
    SwappedAt(d, m, n, e, k - 1);
    var p := (k - 1) * m;
    BytesSlice(Swapped(d, m, n, e), p, p + m);
    assert (k - 1) * (8 * m) == 8 * p;
  }

  lemma OneByte(t: DataType)
    requires ArrayType(t) && !IsNativeDataStuffed(t)
    ensures t.Boolean? ==> NativeSize(t, 1) == 1 && forall n: nat :: NativeSize(t, n) == n
    ensures !t.Boolean? ==> NativeSize(t, 1) == Width(t) && BitLength(t) == 8 * Width(t)
    ensures !t.Boolean? ==> forall n: nat :: NativeSize(t, n) == n * Width(t)
  {
  }

  lemma WithinPrefix<T>(s: seq<T>, k: nat, a: nat, b: nat)
    requires a <= b <= k <= |s|
    ensures s[a..b] == s[..k][a..b]
  {
  }

  /** Bytes p..p + m of the first k bytes of a memory given as bits. */
  lemma ElementIs(mem: seq<bool>, k: nat, p: nat, m: nat)
    requires 8 * k <= |mem| && p + m <= k
    ensures |BitsBytes(mem[..8 * k])| == k
    ensures BitsBytes(mem[8 * p..8 * (p + m)]) == BitsBytes(mem[..8 * k])[p..p + m]
  {
    hide BytesBits, BitsBytes;
    var d := BitsBytes(mem[..8 * k]);
    BitsRoundTrip(mem[..8 * k]);
    BytesSlice(d, p, p + m);
    WithinPrefix(mem, 8 * k, 8 * p, 8 * (p + m));
    BytesRoundTrip(d[p..p + m]);
  }

  lemma ElementSize(t: DataType, k: nat, n: nat, all: seq<bool>)
    requires 1 <= k <= n && Holds(t, n, all)
    ensures |StreamElement(t, k, all)| == BitLength(t)
  {
    hide BitLength;
    Inside(k, n, BitLength(t));
  }

  /** A single read of subindex k returns bits (k - 1) * w .. k * w of what complete read emits behind SI0. */
  lemma SingleReadIsSlice(a: ArrayDescr, s: ArrayState, k: nat, permissions: nat, cap: nat, e: Endian)
    requires ValidState(a, s) && 1 <= k <= s.si0
    requires And(And(a.attributes, ATTR_ACCESS_RD), permissions) != 0 && BitLength(a.type_) <= cap
    ensures 8 * NativeSize(a.type_, s.si0) <= |s.mem|
    ensures Holds(a.type_, s.si0, ArrayImage(a, s.si0, s.mem, e))
    ensures ArrayRead(Writing([], cap), a, s, k, permissions, OK, e) ==
            (Writing(StreamElement(a.type_, k, ArrayImage(a, s.si0, s.mem, e)), cap), Done(OK))
  {
    hide Encoded, NativeOf, Element, ElementToStream, Put, Extended, And, NativeSize, BitLength, StreamElement;
    SizeMono(a.type_, s.si0, a.maxSI0);
    EncodedElement(a.type_, s.si0, k, s.mem, e);
    var seg := ElementToStream(a.type_, Element(a.type_, k, s.mem), e);
    ElementSize(a.type_, k, s.si0, ArrayImage(a, s.si0, s.mem, e)) by { assert And(a.attributes, ATTR_ACCESS_RD) != 0; }
    PutIs([], cap, !IsDataTypeBitBased(a.type_), seg);
    FromEmpty(!IsDataTypeBitBased(a.type_), seg);
  }

  /** The native bits of an element that is read from the stream. */
  function WrittenCell(r: Reader, t: DataType, e: Endian): seq<bool>
    requires ArrayType(t)
  {
    var f := Get(r, !IsDataTypeBitBased(t), BitLength(t));
    if f.st != Ok then [] else if IsNativeDataStuffed(t) then f.val else BytesBits(Decoded(t, 1, f.val, e))
  }

  /** A successful single write of subindex k > 0 changes SI0 not at all and the memory in exactly the bits of element k. */
  lemma SingleWriteChangesElement(r: Reader, a: ArrayDescr, s: ArrayState, k: nat, permissions: nat, beforeWrite: SDOAbortCode, e: Endian)
    requires ValidState(a, s) && 1 <= k
    ensures var w := ArrayWrite(r, a, s, k, permissions, beforeWrite, e);
            && w.s.si0 == s.si0 && |w.s.mem| == |s.mem|
            && (w.out != Done(OK) ==> w.s == s)
            && (w.out == Done(OK) ==>
                  && k <= s.si0 && DataBits(a.type_, k) <= |s.mem|
                  && (forall i :: 0 <= i < |s.mem| && !(DataBits(a.type_, k - 1) <= i < DataBits(a.type_, k)) ==> w.s.mem[i] == s.mem[i])
                  && Element(a.type_, k, w.s.mem) == WrittenCell(r, a.type_, e))
  {
    hide And, BytesBits, Decoded, Get, DataBits, FromBits, Pow2, Fetch, Consumed, NativeSize, BitLength, PutElement, Element;
    if 1 <= k <= s.si0 {
      SizeMono(a.type_, k, a.maxSI0);
      NativeBits(a.type_, k);
      NativeBits(a.type_, a.maxSI0);
      NativeBits(a.type_, 1);
      DataBitsAt(a.type_, k, a.maxSI0);
      OneElement(a.type_);
      var cell := WrittenCell(r, a.type_, e);
      if |cell| == DataBits(a.type_, 1) { ElementReplaced(a.type_, k, s.mem, cell); }
    }
  }

  lemma ElementReplaced(t: DataType, k: nat, mem: seq<bool>, cell: seq<bool>)
    requires 1 <= k && DataBits(t, k) == DataBits(t, k - 1) + |cell| && DataBits(t, k) <= |mem|
    ensures var m := PutElement(t, k, mem, cell);
            && |m| == |mem| && Element(t, k, m) == cell
            && forall i :: 0 <= i < |mem| && !(DataBits(t, k - 1) <= i < DataBits(t, k)) ==> m[i] == mem[i]
  {
    hide DataBits;
  }

  lemma OneElement(t: DataType)
    requires ArrayType(t)
    ensures DataBits(t, 1) == if IsNativeDataStuffed(t) then BitLength(t) else 8 * NativeSize(t, 1)
  {
  }

  /** Complete write keeps SI0 in its bounds and leaves every bit above the new last element unchanged; anything but
      success changes nothing. */
  lemma CompleteWriteKeepsRest(r: Reader, a: ArrayDescr, s: ArrayState, inclSI0: bool, SI016Bits: bool, permissions: nat,
                               ernob: Expectation, beforeWrite: SDOAbortCode, e: Endian)
    requires ValidState(a, s)
    ensures var w := ArrayCompleteWrite(r, a, s, inclSI0, SI016Bits, permissions, ernob, beforeWrite, e);
            && ValidState(a, w.s)
            && (w.out != Done(OK) ==> w.s == s)
            && (And(a.attributesSI0, ATTR_ACCESS_WR) == 0 || !inclSI0 ==> w.s.si0 == s.si0)
            && (And(a.attributes, ATTR_ACCESS_WR) == 0 ==> w.s.mem == s.mem)
            && forall i :: DataBits(a.type_, w.s.si0) <= i < |s.mem| ==> w.s.mem[i] == s.mem[i]
  {
    hide And, BytesBits, BitsBytes, IntValue, Decoded, Get, FetchBytes, NativeSize, Consumed, WriteElements, DataBits;
    var f := FetchBytes(r, if inclSI0 then SI0Size(SI016Bits) else 0);
    if f.st == Ok {
      ElementsKeepRest(f.rd, a, s, if inclSI0 then IntValue(BitsBytes(f.val), e) else s.si0, ernob, beforeWrite, e);
    }
  }

  lemma ElementsKeepRest(r: Reader, a: ArrayDescr, s: ArrayState, n: nat, ernob: Expectation, beforeWrite: SDOAbortCode, e: Endian)
    requires ValidState(a, s)
    ensures var w := WriteElements(r, a, s, n, ernob, beforeWrite, e);
            && |w.s.mem| == |s.mem|
            && (w.out == Done(OK) ==> w.s.si0 == n)
            && (w.out != Done(OK) ==> w.s == s)
            && (And(a.attributes, ATTR_ACCESS_WR) == 0 ==> w.s.mem == s.mem)
            && forall i :: DataBits(a.type_, w.s.si0) <= i < |s.mem| ==> w.s.mem[i] == s.mem[i]
  {
    hide And, Get, Consumed, ArrayStored, DataBits, BitLength;
    StoredKeepsRest(a, s, n, e);
    StoredReadOnly(a, s, n, e);
  }

  lemma StoredReadOnly(a: ArrayDescr, s: ArrayState, n: nat, e: Endian)
    requires ArrayType(a.type_)
    ensures And(a.attributes, ATTR_ACCESS_WR) == 0 ==>
              forall v: seq<bool> :: |v| == n * BitLength(a.type_) ==> ArrayStored(a, n, s.mem, v, e) == s.mem
  {
    hide And, BytesBits, Decoded, BitLength;
  }

  lemma StoredKeepsRest(a: ArrayDescr, s: ArrayState, n: nat, e: Endian)
    requires ValidState(a, s)
    ensures forall v: seq<bool>, i :: |v| == n * BitLength(a.type_) && DataBits(a.type_, n) <= i < |s.mem| ==>
              ArrayStored(a, n, s.mem, v, e)[i] == s.mem[i]
  {
    hide And, BytesBits, Decoded;
  }

  /** Element by element, what a complete write of packed data stores is what the stream holds. */
  lemma CompleteWriteStoresElements(a: ArrayDescr, s: ArrayState, n: nat, v: seq<bool>, k: nat, e: Endian)
    requires ValidState(a, s) && IsNativeDataStuffed(a.type_) && And(a.attributes, ATTR_ACCESS_WR) != 0
    requires 1 <= k <= n <= a.maxSI0 && Holds(a.type_, n, v)
    ensures Element(a.type_, k, ArrayStored(a, n, s.mem, v, e)) == StreamElement(a.type_, k, v)
  {
    hide And, BytesBits, NativeSize;
    var w := BitLength(a.type_);
    DataBitsAt(a.type_, k, n);
    DataBitsAt(a.type_, n, a.maxSI0);
    Inside(k, n, w);
    var p := (k - 1) * w;
    assert k * w == p + w;
    var m := ArrayStored(a, n, s.mem, v, e);
    assert m[..n * w] == v;
    assert m[p..p + w] == v[p..p + w];
  }
}
