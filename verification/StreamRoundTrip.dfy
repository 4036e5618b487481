/**
 Whatever is written to a MemStreamWriter is read back by a MemStreamReader: any list of typed items, mixing bits and
 bytes, in either endianness.
 */
module StreamRoundTrip {
  import opened UInt
  import opened StreamSpec
  import opened MemStreamWriters
  import opened MemStreamReaders
  import opened StreamWriterBase
  import opened StreamReaderBase

  // ---------------------------------------------------------------- lines

  /** Read_line takes the line `text` and k bytes more from a stream of the bytes d. */
  ghost predicate ReadsLine(d: seq<byte>, text: seq<byte>, k: nat)
  {
    ReadLine(Reading(BytesBits(d), 0)) == ReadText(Reading(BytesBits(d), 8 * (|text| + k)), Ok, text)
  }

  lemma TakenLine(d: seq<byte>, n: nat, k: nat)
    requires d != [] && n == LineLen(d) && n + k == LineSize(d)
    ensures ReadsLine(d, d[..n], k)
  {
    hide BytesBits, BitsBytes, RestBytes, FetchBytes, LineLen, LineSize, AlignUp, Pad, StreamSpec.EndsLine;
    WholeStream(d);
    AlignedZero();
  }

  lemma {:induction false} LineLenIs(d: seq<byte>, n: nat)
    requires n <= |d| && (forall i :: 0 <= i < n ==> !EndsLine(d[i])) && (n < |d| ==> EndsLine(d[n]))
    ensures LineLen(d) == n
  {
    if n > 0 { LineLenIs(d[1..], n - 1); }
  }

  /** A line ends with NUL, LF, CR, CR LF or the stream; CR LF counts as one end. */
  lemma LineEnds(text: seq<byte>, behind: seq<byte>)
    requires forall i :: 0 <= i < |text| ==> text[i] != 0 && text[i] != 0x0A && text[i] != 0x0D
    ensures ReadsLine(text + [0] + behind, text, 1)
    ensures ReadsLine(text + [0x0A] + behind, text, 1)
    ensures ReadsLine(text + [0x0D, 0x0A] + behind, text, 2)
    ensures behind == [] || behind[0] != 0x0A ==> ReadsLine(text + [0x0D] + behind, text, 1)
    ensures text != [] ==> ReadsLine(text, text, 0)
  {
    hide ReadsLine;
    LineEnd(text, [0], behind);
    LineEnd(text, [0x0A], behind);
    LineEnd(text, [0x0D], behind);
    LineEnd(text, [0x0D, 0x0A], behind);
    if text != [] {
      LineLenIs(text, |text|);
      assert text[..|text|] == text;
      TakenLine(text, |text|, 0);
    }
  }

  lemma LineEnd(text: seq<byte>, end: seq<byte>, behind: seq<byte>)
    requires forall i :: 0 <= i < |text| ==> text[i] != 0 && text[i] != 0x0A && text[i] != 0x0D
    requires end in [[0], [0x0A], [0x0D], [0x0D, 0x0A]]
    ensures end != [0x0D] || behind == [] || behind[0] != 0x0A ==> ReadsLine(text + end + behind, text, |end|)
  {
    hide ReadsLine;
    var d, n := text + end + behind, |text|;
    assert d[n] == end[0] && forall i :: 0 <= i < n ==> d[i] == text[i];
    LineLenIs(d, n);
    assert d[..n] == text;
    assert |end| == 2 ==> d[n + 1] == end[1];
    assert |end| == 1 && behind != [] ==> d[n + 1] == behind[0];
    if LineSize(d) == n + |end| { TakenLine(d, n, |end|); }
  }

  // ---------------------------------------------------------------- typed items

  datatype Item =
    | Bits(v: byte, n: nat)              // Write_Bit, Write_bool, Write_Bits(bits, n)
    | BitArray(d: seq<byte>, len: nat)   // Write_Bits(pData, n)
    | Uint(value: nat, k: nat)           // Write_uint8 .. Write_uint64
    | Bytes(data: seq<byte>)             // Write_uint8(pData, n), Write_char(pData, n)
    | Str(chars: seq<byte>)              // Write_string
    | Line(text: seq<byte>)              // Write_line

  datatype Shape = BitsOf(n: nat) | BitArrayOf(len: nat) | UintOf(k: nat) | BytesOf(count: nat) | StrOf | LineOf

  /** What the types of the write operations allow, NUL-free strings and break-free lines. */
  ghost predicate Writable(it: Item)
  {
    match it
    case Bits(_, n) => n <= 8
    case BitArray(d, len) => len <= 8 * |d|
    case Uint(v, k) => k in {1, 2, 4, 8} && v < Pow2(8 * k)
    case Bytes(_) => true
    case Str(s) => forall i :: 0 <= i < |s| ==> s[i] != 0
    case Line(s) => forall i :: 0 <= i < |s| ==> !EndsLine(s[i])
  }

  function ShapeOf(it: Item): Shape
  {
    match it
    case Bits(_, n) => BitsOf(n)
    case BitArray(_, len) => BitArrayOf(len)
    case Uint(_, k) => UintOf(k)
    case Bytes(d) => BytesOf(|d|)
    case Str(_) => StrOf
    case Line(_) => LineOf
  }

  /** The value a reader sees: bits that were not to be written are gone. */
  function Written(it: Item): Item
    requires Writable(it)
  {
    match it
    case Bits(v, n) => Low8(v, n); Bits(Low(v, n), n)
    case BitArray(d, len) => BitArray(PackBits(BytesBits(d)[..len]), len)
    case _ => it
  }

  lemma Low8(v: nat, n: nat)
    requires n <= 8
    ensures Low(v, n) < 256
  {
    Pow2Mono(n, 8);
    assert Pow2(8) == 256;
  }

  function WriteItem(w: Writer, it: Item, e: Endian): (Writer, Status)
    requires Writable(it)
  {
    match it
    case Bits(v, n) => PushBits(w, v, n)
    case BitArray(d, len) => PushRun(w, BytesBits(d)[..len])
    case Uint(v, k) => PushBytes(w, Ordered(LeBytes(v, k), e))
    case Bytes(d) => PushBytes(w, d)
    case Str(s) => PushBytes(w, s + [0])
    case Line(s) => PushBytes(w, s + [0x0A])
  }

  function WriteItems(w: Writer, items: seq<Item>, e: Endian): (Writer, Status)
    requires forall i :: 0 <= i < |items| ==> Writable(items[i])
    decreases |items|
  {
    if items == [] then (w, Ok) else
      var (w1, st) := WriteItem(w, items[0], e);
      if st == Ok then WriteItems(w1, items[1..], e) else (w1, st)
  }

  datatype ReadItemResult = ReadItemResult(rd: Reader, st: Status, it: Item)
  datatype ReadItemsResult = ReadItemsResult(rd: Reader, st: Status, items: seq<Item>)

  function NoItem(): Item { Bytes([]) }

  function ReadItem(r: Reader, s: Shape, e: Endian): ReadItemResult
    requires s.BitsOf? ==> s.n <= 8
  {
    match s
    case BitsOf(n) =>
      var f := FetchRun(r, n);
      FewBits(f.val);
      ReadItemResult(f.rd, f.st, if f.st == Ok then Bits(FromBits(f.val), n) else NoItem())
    case BitArrayOf(len) =>
      var f := FetchRun(r, len);
      ReadItemResult(f.rd, f.st, if f.st == Ok then BitArray(PackBits(f.val), len) else NoItem())
    case UintOf(k) =>
      var f := FetchBytes(r, k);
      ReadItemResult(f.rd, f.st, if f.st == Ok then Uint(IntValue(BitsBytes(f.val), e), k) else NoItem())
    case BytesOf(count) =>
      var f := FetchBytes(r, count);
      ReadItemResult(f.rd, f.st, if f.st == Ok then Bytes(BitsBytes(f.val)) else NoItem())
    case StrOf =>
      var t := StreamSpec.ReadString(r);
      ReadItemResult(t.rd, t.st, if t.st == Ok then Str(t.text) else NoItem())
    case LineOf =>
      var t := StreamSpec.ReadLine(r);
      ReadItemResult(t.rd, t.st, if t.st == Ok then Line(t.text) else NoItem())
  }

  function ReadItems(r: Reader, shapes: seq<Shape>, e: Endian): ReadItemsResult
    requires forall i :: 0 <= i < |shapes| ==> shapes[i].BitsOf? ==> shapes[i].n <= 8
    decreases |shapes|
  {
    if shapes == [] then ReadItemsResult(r, Ok, []) else
      var t := ReadItem(r, shapes[0], e);
      if t.st != Ok then ReadItemsResult(t.rd, t.st, []) else
        var u := ReadItems(t.rd, shapes[1..], e);
        ReadItemsResult(u.rd, u.st, if u.st == Ok then [t.it] + u.items else [])
  }

  function Shapes(items: seq<Item>): (r: seq<Shape>)
    ensures |r| == |items|
  {
    if items == [] then [] else [ShapeOf(items[0])] + Shapes(items[1..])
  }

  function WrittenItems(items: seq<Item>): (r: seq<Item>)
    requires forall i :: 0 <= i < |items| ==> Writable(items[i])
    ensures |r| == |items|
  {
    if items == [] then [] else [Written(items[0])] + WrittenItems(items[1..])
  }

  // ---------------------------------------------------------------- where things end up

  /** Bits and alignment of one item. */
  function Payload(it: Item, e: Endian): seq<bool>
    requires Writable(it)
  {
    match it
    case Bits(v, n) => ToBits(v, n)
    case BitArray(d, len) => BytesBits(d)[..len]
    case Uint(v, k) => BytesBits(Ordered(LeBytes(v, k), e))
    case Bytes(d) => BytesBits(d)
    case Str(s) => BytesBits(s + [0])
    case Line(s) => BytesBits(s + [0x0A])
  }

  predicate ByteBased(it: Item) { !it.Bits? && !it.BitArray? }

  /** The bit string after one more item on a stream without end. */
  function After(out: seq<bool>, it: Item, e: Endian): seq<bool>
    requires Writable(it)
  {
    Extended(out, ByteBased(it), Payload(it, e))
  }

  function Layout(out: seq<bool>, items: seq<Item>, e: Endian): seq<bool>
    requires forall i :: 0 <= i < |items| ==> Writable(items[i])
    decreases |items|
  {
    if items == [] then out else Layout(After(out, items[0], e), items[1..], e)
  }

  lemma AfterGrows(out: seq<bool>, it: Item, e: Endian)
    requires Writable(it)
    ensures out <= After(out, it, e)
  {
    hide Payload;
    ExtendedGrows(out, ByteBased(it), Payload(it, e));
  }

  lemma {:induction false} LayoutGrows(out: seq<bool>, items: seq<Item>, e: Endian)
    requires forall i :: 0 <= i < |items| ==> Writable(items[i])
    ensures out <= Layout(out, items, e)
    decreases |items|
  {
    hide After;
    if items != [] {
      AfterGrows(out, items[0], e);
      LayoutGrows(After(out, items[0], e), items[1..], e);
    }
  }

  lemma WriteItemIs(out: seq<bool>, cap: nat, it: Item, e: Endian)
    requires Writable(it) && |out| <= cap
    ensures WriteItem(Writing(out, cap), it, e) ==
            if |After(out, it, e)| <= cap then (Writing(After(out, it, e), cap), Ok) else (WriteFailed, FullError)
  {
    hide ToBits, BytesBits, LeBytes, Aligned, Pow2, Ordered;
    PutIs(out, cap, ByteBased(it), Payload(it, e));
  }

  /** Writing succeeds exactly when the final position fits. */
  lemma {:induction false} WriteSucceedsIffFits(out: seq<bool>, cap: nat, items: seq<Item>, e: Endian)
    requires forall i :: 0 <= i < |items| ==> Writable(items[i])
    requires |out| <= cap
    ensures WriteItems(Writing(out, cap), items, e) ==
            if |Layout(out, items, e)| <= cap then (Writing(Layout(out, items, e), cap), Ok) else (WriteFailed, FullError)
    decreases |items|
  {
    hide WriteItem, After, Writable;
    if items != [] {
      var a := After(out, items[0], e);
      WriteItemIs(out, cap, items[0], e);
      if |a| <= cap {
        WriteSucceedsIffFits(a, cap, items[1..], e);
      } else {
        LayoutGrows(a, items[1..], e);
      }
    }
  }

  /** Capacities are whole bytes, so the bits fit exactly when their byte-aligned end does. */
  lemma AlignedEndFits(out: seq<bool>, size: nat)
    ensures |out| <= 8 * size <==> |Aligned(out)| <= 8 * size
  {
    AlignedId(out);
  }

  // ---------------------------------------------------------------- reading back

  lemma RestStarts(bits: seq<bool>, pos: nat, d: seq<byte>)
    requires |bits| % 8 == 0 && AlignUp(pos) + 8 * |d| <= |bits|
    requires bits[AlignUp(pos)..AlignUp(pos) + 8 * |d|] == BytesBits(d)
    ensures d <= RestBytes(Reading(bits, pos))
  {
    hide BytesBits, BitsBytes, AlignUp;
    AlignUpWhole(pos);
    WholeRest(bits, AlignUp(pos), d);
  }

  lemma TailSize(size: nat, p: nat, n: nat)
    requires size % 8 == 0 && p % 8 == 0 && p + 8 * n <= size
    ensures (size - (p + 8 * n)) % 8 == 0
  {
  }

  lemma WholeRest(bits: seq<bool>, p: nat, d: seq<byte>)
    requires |bits| % 8 == 0 && p % 8 == 0 && p + 8 * |d| <= |bits| && bits[p..p + 8 * |d|] == BytesBits(d)
    ensures d <= BitsBytes(bits[p..])
  {
    hide BytesBits, BitsBytes;
    var tail := bits[p + 8 * |d|..];
    assert bits[p..] == BytesBits(d) + tail;
    TailSize(|bits|, p, |d|);
    BitsRoundTrip(tail);
    BytesBitsAppend(d, BitsBytes(tail));
    BytesRoundTrip(d + BitsBytes(tail));
  }

  lemma ReadBackString(bits: seq<bool>, pos: nat, s: seq<byte>, t: seq<byte>)
    requires |bits| % 8 == 0 && AlignUp(pos) + 8 * |t| <= |bits| && t == s + [0]
    requires forall i :: 0 <= i < |s| ==> s[i] != 0
    requires bits[AlignUp(pos)..AlignUp(pos) + 8 * |t|] == BytesBits(t)
    ensures StreamSpec.ReadString(Reading(bits, pos)) == ReadText(Reading(bits, AlignUp(pos) + 8 * |t|), Ok, s)
  {
    hide BytesBits, BitsBytes, AlignUp, Pad, StringLen, RestBytes, StreamSpec.ReadString;
    StringIsNext(bits, pos, s, t);
    StringAtPos(bits, pos, RestBytes(Reading(bits, pos)), |s|);
  }

  lemma StringIsNext(bits: seq<bool>, pos: nat, s: seq<byte>, t: seq<byte>)
    requires |bits| % 8 == 0 && AlignUp(pos) + 8 * |t| <= |bits| && t == s + [0]
    requires forall i :: 0 <= i < |s| ==> s[i] != 0
    requires bits[AlignUp(pos)..AlignUp(pos) + 8 * |t|] == BytesBits(t)
    ensures var d := RestBytes(Reading(bits, pos)); StringLen(d) == |s| < |d| && d[..|s|] == s
  {
    hide BytesBits, BitsBytes, AlignUp, Pad, StringLen, RestBytes;
    RestStarts(bits, pos, t);
    TextAtFront(RestBytes(Reading(bits, pos)), s);
  }

  lemma StringAtPos(bits: seq<bool>, pos: nat, d: seq<byte>, n: nat)
    requires d == RestBytes(Reading(bits, pos)) && StringLen(d) == n < |d|
    ensures StreamSpec.ReadString(Reading(bits, pos)) == ReadText(Reading(bits, AlignUp(pos) + 8 * (n + 1)), Ok, d[..n])
  {
    hide BytesBits, BitsBytes, AlignUp, Pad, StringLen, RestBytes;
  }

  lemma TextAtFront(d: seq<byte>, s: seq<byte>)
    requires s + [0] <= d && forall i :: 0 <= i < |s| ==> s[i] != 0
    ensures StringLen(d) == |s| < |d| && d[..|s|] == s
  {
    hide StringLen;
    assert d[|s|] == (s + [0])[|s|];
    assert forall i :: 0 <= i < |s| ==> d[i] == (s + [0])[i];
  }

  lemma ReadBackLine(bits: seq<bool>, pos: nat, s: seq<byte>, t: seq<byte>)
    requires |bits| % 8 == 0 && AlignUp(pos) + 8 * |t| <= |bits| && t == s + [0x0A]
    requires forall i :: 0 <= i < |s| ==> !EndsLine(s[i])
    requires bits[AlignUp(pos)..AlignUp(pos) + 8 * |t|] == BytesBits(t)
    ensures StreamSpec.ReadLine(Reading(bits, pos)) == ReadText(Reading(bits, AlignUp(pos) + 8 * |t|), Ok, s)
  {
    hide BytesBits, BitsBytes, AlignUp, Pad, LineLen, RestBytes, LineSize, StreamSpec.EndsLine, StreamSpec.ReadLine;
    LineIsNext(bits, pos, s, t);
    LineAtPos(bits, pos, RestBytes(Reading(bits, pos)), |s|, |s| + 1);
  }

  lemma LineIsNext(bits: seq<bool>, pos: nat, s: seq<byte>, t: seq<byte>)
    requires |bits| % 8 == 0 && AlignUp(pos) + 8 * |t| <= |bits| && t == s + [0x0A]
    requires forall i :: 0 <= i < |s| ==> !EndsLine(s[i])
    requires bits[AlignUp(pos)..AlignUp(pos) + 8 * |t|] == BytesBits(t)
    ensures var d := RestBytes(Reading(bits, pos)); d != [] && LineLen(d) == |s| && LineSize(d) == |s| + 1 && d[..|s|] == s
  {
    hide BytesBits, BitsBytes, AlignUp, Pad, LineLen, RestBytes, LineSize, StreamSpec.EndsLine;
    RestStarts(bits, pos, t);
    LineAtFront(RestBytes(Reading(bits, pos)), s);
  }

  lemma LineAtPos(bits: seq<bool>, pos: nat, d: seq<byte>, n: nat, m: nat)
    requires d == RestBytes(Reading(bits, pos)) && d != [] && LineLen(d) == n && LineSize(d) == m
    ensures n <= |d| && StreamSpec.ReadLine(Reading(bits, pos)) == ReadText(Reading(bits, AlignUp(pos) + 8 * m), Ok, d[..n])
  {
    hide BytesBits, BitsBytes, AlignUp, Pad, LineLen, RestBytes, LineSize;
  }

  lemma LineAtFront(d: seq<byte>, s: seq<byte>)
    requires s + [0x0A] <= d && forall i :: 0 <= i < |s| ==> !EndsLine(s[i])
    ensures LineLen(d) == |s| && LineSize(d) == |s| + 1 && d[..|s|] == s
  {
    hide LineLen;
    assert d[|s|] == (s + [0x0A])[|s|];
    assert forall i :: 0 <= i < |s| ==> d[i] == (s + [0x0A])[i];
  }

  /** One item, read at the place where it was written. */
  lemma ReadItemBack(bits: seq<bool>, out: seq<bool>, it: Item, e: Endian)
    requires Writable(it) && |bits| % 8 == 0 && After(out, it, e) <= bits
    ensures ReadItem(Reading(bits, |out|), ShapeOf(it), e) ==
            ReadItemResult(Reading(bits, |After(out, it, e)|), Ok, Written(it))
  {
    hide ToBits, BytesBits, BitsBytes, LeBytes, Pow2, Ordered, AlignUp, FromBits, PackBits, IntValue, Low, Get, Extended,
         StreamSpec.ReadString, StreamSpec.ReadLine;
    GetBack(bits, out, ByteBased(it), Payload(it, e));
    match it
    case Bits(v, n) =>
      FromToBits(v, n);
    case BitArray(d, len) =>
    case Uint(v, k) =>
      BytesRoundTrip(Ordered(LeBytes(v, k), e));
      IntRoundTrip(v, k, e);
    case Bytes(d) =>
      BytesRoundTrip(d);
    case Str(s) =>
      ReadTextBack(bits, out, it, e);
    case Line(s) =>
      ReadTextBack(bits, out, it, e);
  }

  lemma ReadTextBack(bits: seq<bool>, out: seq<bool>, it: Item, e: Endian)
    requires (it.Str? || it.Line?) && Writable(it) && |bits| % 8 == 0 && After(out, it, e) <= bits
    ensures ReadItem(Reading(bits, |out|), ShapeOf(it), e) ==
            ReadItemResult(Reading(bits, |After(out, it, e)|), Ok, Written(it))
  {
    hide ToBits, BytesBits, AlignUp, FromBits, Extended, StreamSpec.ReadString, StreamSpec.ReadLine;
    match it
    case Str(s) =>
      TextSlice(bits, out, s + [0]);
      ReadBackString(bits, |out|, s, s + [0]);
    case Line(s) =>
      TextSlice(bits, out, s + [0x0A]);
      ReadBackLine(bits, |out|, s, s + [0x0A]);
  }

  lemma TextSlice(bits: seq<bool>, out: seq<bool>, d: seq<byte>)
    requires d != [] && Extended(out, true, BytesBits(d)) <= bits
    ensures |Extended(out, true, BytesBits(d))| == AlignUp(|out|) + 8 * |d|
    ensures bits[AlignUp(|out|)..AlignUp(|out|) + 8 * |d|] == BytesBits(d)
  {
    hide BytesBits, Pad, Const;
    AlignedId(out);
    var t := Extended(out, true, BytesBits(d));
    assert t[AlignUp(|out|)..] == BytesBits(d);
  }

  lemma {:induction false} ReadItemsBack(bits: seq<bool>, out: seq<bool>, items: seq<Item>, e: Endian)
    requires forall i :: 0 <= i < |items| ==> Writable(items[i])
    requires |bits| % 8 == 0 && Layout(out, items, e) <= bits
    ensures (forall i :: 0 <= i < |items| ==> Shapes(items)[i].BitsOf? ==> Shapes(items)[i].n <= 8)
    ensures ReadItems(Reading(bits, |out|), Shapes(items), e) ==
            ReadItemsResult(Reading(bits, |Layout(out, items, e)|), Ok, WrittenItems(items))
    decreases |items|
  {
    hide ReadItem, After;
    if items != [] {
      var a := After(out, items[0], e);
      LayoutGrows(a, items[1..], e);
      ReadItemBack(bits, out, items[0], e);
      ReadItemsBack(bits, a, items[1..], e);
      assert Shapes(items)[1..] == Shapes(items[1..]);
    }
  }

  /** Writing any list of items succeeds exactly when the byte-aligned end fits; reading the same list of shapes from
      the closed, exactly sized stream returns the items, and fewer than eight bits are left. */
  lemma RoundTrip(items: seq<Item>, size: nat, e: Endian)
    requires forall i :: 0 <= i < |items| ==> Writable(items[i])
    ensures forall i :: 0 <= i < |items| ==> Shapes(items)[i].BitsOf? ==> Shapes(items)[i].n <= 8
    ensures var out := Layout([], items, e);
            && WriteItems(Writing([], 8 * size), items, e) ==
               (if |Aligned(out)| <= 8 * size then (Writing(out, 8 * size), Ok) else (WriteFailed, FullError))
            && ReadItems(Reading(Aligned(out), 0), Shapes(items), e) ==
               ReadItemsResult(Reading(Aligned(out), |out|), Ok, WrittenItems(items))
            && |Aligned(out)| - |out| <= 7
  {
    hide WriteItem, ReadItem, After, Layout, Shapes, WrittenItems, Writable, WriteItems, ReadItems;
    var out := Layout([], items, e);
    WriteSucceedsIffFits([], 8 * size, items, e);
    AlignedEndFits(out, size);
    AlignedId(out);
    assert Aligned(out)[..|out|] == out;
    ReadItemsBack(Aligned(out), [], items, e);
  }

  // ---------------------------------------------------------------- the same with the stream classes

  method WriteAll(w: MemStreamWriter, items: seq<Item>) returns (st: Status)
    requires w.Valid() && forall i :: 0 <= i < |items| ==> Writable(items[i])
    modifies w, w.buffer
    ensures w.Valid() && (w.Abs(), st) == WriteItems(old(w.Abs()), items, w.endian)
  {
    hide MemStreamWriter.Valid, MemStreamWriter.Abs;
    hide ToBits, BytesBits, LeBytes, Ordered, WriteItem;
    ghost var w0 := w.Abs();
    st := Ok;
    var i := 0;
    while i < |items|
      invariant i <= |items| && w.Valid() && st == Ok
      invariant WriteItems(w0, items, w.endian) == WriteItems(w.Abs(), items[i..], w.endian)
    {
      assert items[i..][1..] == items[i + 1..];
      st := WriteOne(w, items[i]);
      if st != Ok { return; }
      i := i + 1;
    }
  }

  method WriteOne(w: MemStreamWriter, it: Item) returns (st: Status)
    requires w.Valid() && Writable(it)
    modifies w, w.buffer
    ensures w.Valid() && (w.Abs(), st) == WriteItem(old(w.Abs()), it, w.endian)
  {
    hide MemStreamWriter.Valid, MemStreamWriter.Abs;
    hide ToBits, BytesBits, LeBytes, Ordered, Pow2, Digits, LastBytes;
    match it
    case Bits(v, n) => st := w.PushBits(v, n);
    case BitArray(d, len) => st := WriteBitArray(w, d, len);
    case Uint(v, k) => st := WriteUint(w, v, k);
    case Bytes(d) => st := w.PushBlock(d);
    case Str(s) => st := WriteString(w, s);
    case Line(s) => st := WriteLine(w, s);
  }

  method ReadAll(r: MemStreamReader, shapes: seq<Shape>) returns (st: Status, items: seq<Item>)
    requires r.Valid() && forall i :: 0 <= i < |shapes| ==> shapes[i].BitsOf? ==> shapes[i].n <= 8
    modifies r
    ensures r.Valid()
    ensures ReadItemsResult(r.Abs(), st, items) == ReadItems(old(r.Abs()), shapes, r.endian)
    decreases |shapes|
  {
    hide MemStreamReader.Valid, MemStreamReader.Abs;
    hide ReadItem;
    if |shapes| == 0 { return Ok, []; }
    var it;
    st, it := ReadOne(r, shapes[0]);
    items := [];
    if st != Ok { return; }
    var rest;
    st, rest := ReadAll(r, shapes[1..]);
    if st == Ok { items := [it] + rest; }
  }

  method ReadOne(r: MemStreamReader, s: Shape) returns (st: Status, it: Item)
    requires r.Valid() && (s.BitsOf? ==> s.n <= 8)
    modifies r
    ensures r.Valid()
    ensures ReadItemResult(r.Abs(), st, it) == ReadItem(old(r.Abs()), s, r.endian)
  {
    hide MemStreamReader.Valid, MemStreamReader.Abs;
    hide ToBits, FromBits, BytesBits, BitsBytes, LeValue, PackBits, Digits, PassedBytes, Pow2;
    it := NoItem();
    match s
    case BitsOf(n) =>
      var v;
      st, v := r.PopBits(n);
      if st == Ok { it := Bits(v, n); }
    case BitArrayOf(len) =>
      var d;
      st, d := ReadBitArray(r, len);
      if st == Ok { it := BitArray(d, len); }
    case UintOf(k) =>
      var v;
      st, v := ReadUint(r, k);
      if st == Ok { it := Uint(v, k); }
    case BytesOf(n) =>
      var d;
      st, d := r.PopBlock(n);
      if st == Ok { BytesRoundTrip(d); it := Bytes(d); }
    case StrOf =>
      var t;
      st, t := r.ReadString();
      if st == Ok { it := Str(t); }
    case LineOf =>
      var t;
      st, t := r.ReadLine();
      if st == Ok { it := Line(t); }
  }

  /** Writer, Close, reader and EnsureAllDataConsumed on one block of memory. */
  method Transfer(items: seq<Item>, size: nat, e: Endian) returns (st: Status, back: seq<Item>)
    requires forall i :: 0 <= i < |items| ==> Writable(items[i])
    ensures st == if |Aligned(Layout([], items, e))| <= 8 * size then Ok else FullError
    ensures st == Ok ==> back == WrittenItems(items)
  {
    hide WriteItems, ReadItems, Layout, WrittenItems, BytesBits, ToBits, FromBits, Shapes, Writable, Aligned, Prefix;
    RoundTrip(items, size, e);
    back := [];
    var buffer := new byte[size];
    var w := new MemStreamWriter(buffer, e);
    st := WriteAll(w, items);
    if st != Ok { return; }
    ghost var out := w.Abs().out;
    w.Close();
    var data := StoredBytes(w, out);
    var r := new MemStreamReader(data, if |data| == 0 then Null else At(0), |data|, e, 0);
    assert data[..|data|] == data;
    st, back := ReadAll(r, Shapes(items));
    st := r.EnsureAllDataConsumed(SevenOrLess);
  }

  /** The bytes a closed writer leaves behind. */
  method StoredBytes(w: MemStreamWriter, ghost out: seq<bool>) returns (data: seq<byte>)
    requires |Aligned(out)| <= 8 * w.buffer.Length && w.Stored() == Aligned(out) && w.pMem <= w.buffer.Length
    ensures BytesBits(data) == Aligned(out)
  {
    hide MemStreamWriter.Valid, MemStreamWriter.Abs;
    hide Aligned, BytesBits;
    data := w.buffer[..w.pMem];
    assert w.buffer[..][..w.pMem] == data;
  }
}
