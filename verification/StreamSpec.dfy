/**
 What a bit/byte stream means.

 A writer that still accepts data is the bit string written so far and its capacity in bits; a reader that still
 delivers data is the bit string behind it and a position. Every operation of the stream classes is one Append or one
 Fetch: byte-based data first moves to a byte boundary, bit-based data does not.
 */
module StreamSpec {
  import opened UInt

  datatype Endian = Little | Big

  datatype Status =
    | Ok
    | FullError
    | EmptyError
    | ClosedError
    | ErrorStateError
    | InvalidArgument
    | DataTypeNotSupported
    | RemainingBitsError
    | NoTerminator

  function Const(n: nat, b: bool): (r: seq<bool>)
    ensures |r| == n
  {
    seq(n, _ => b)
  }

  /** Number of bits up to the next byte boundary. */
  function Pad(n: nat): nat { (8 - n % 8) % 8 }

  function AlignUp(n: nat): (r: nat)
    ensures n <= r < n + 8
  {
    n + Pad(n)
  }

  lemma AlignUpWhole(n: nat)
    ensures AlignUp(n) % 8 == 0
  {
  }

  function Aligned(s: seq<bool>): seq<bool> { s + Const(Pad(|s|), false) }

  function BytesBits(d: seq<byte>): (r: seq<bool>)
    ensures |r| == 8 * |d|
  {
    if d == [] then [] else ToBits(d[0], 8) + BytesBits(d[1..])
  }

  /** The whole bytes in s. */
  function BitsBytes(s: seq<bool>): (r: seq<byte>)
    ensures |r| == |s| / 8
  {
    if |s| < 8 then [] else ByteRange(s[..8]); [FromBits(s[..8])] + BitsBytes(s[8..])
  }

  /** The bits s packed into bytes; spare bits of the last byte are zero. */
  function PackBits(s: seq<bool>): (r: seq<byte>)
    ensures |r| == (|s| + 7) / 8
  {
    if s == [] then []
    else if |s| <= 8 then FewBits(s); [FromBits(s)]
    else FewBits(s[..8]); [FromBits(s[..8])] + PackBits(s[8..])
  }

  lemma FewBits(s: seq<bool>)
    requires |s| <= 8
    ensures FromBits(s) < 256
  {
    Pow2Mono(|s|, 8);
    assert Pow2(8) == 256;
  }

  lemma ByteRange(s: seq<bool>)
    requires |s| == 8
    ensures FromBits(s) < 256
  {
    assert Pow2(8) == 256;
  }

  // ---------------------------------------------------------------- writing

  datatype Writer = Writing(out: seq<bool>, cap: nat) | WriteFailed | WriteClosed

  function Target(out: seq<bool>, align: bool, bits: seq<bool>): seq<bool>
  {
    (if align then Aligned(out) else out) + bits
  }

  function Append(w: Writer, align: bool, bits: seq<bool>): (Writer, Status)
  {
    match w
    case Writing(out, cap) =>
      var t := Target(out, align, bits);
      if |t| <= cap then (Writing(t, cap), Ok) else (WriteFailed, FullError)
    case WriteFailed => (w, ErrorStateError)
    case WriteClosed => (w, ClosedError)
  }

  /** A segment of bits; an empty one is no access at all. */
  function Put(w: Writer, align: bool, bits: seq<bool>): (Writer, Status)
  {
    if bits == [] then (w, Ok) else Append(w, align, bits)
  }

  /** The bit string after Put on a stream without end. */
  function Extended(out: seq<bool>, align: bool, bits: seq<bool>): seq<bool>
  {
    if bits == [] then out else Target(out, align, bits)
  }

  function PushByte(w: Writer, c: byte): (Writer, Status)
  {
    Append(w, true, ToBits(c, 8))
  }

  function PushBytes(w: Writer, d: seq<byte>): (Writer, Status)
  {
    Put(w, true, BytesBits(d))
  }

  function PushBits(w: Writer, bits: nat, n: nat): (Writer, Status)
  {
    if n == 0 then (w, Ok)
    else if n > 8 then (w, InvalidArgument)
    else Append(w, false, ToBits(bits, n))
  }

  function PushRun(w: Writer, bits: seq<bool>): (Writer, Status)
  {
    Put(w, false, bits)
  }

  // ---------------------------------------------------------------- reading

  datatype Reader = Reading(bits: seq<bool>, pos: nat) | ReadFailed | ReadClosed

  datatype Fetched = Fetched(rd: Reader, st: Status, val: seq<bool>)

  function Fetch(r: Reader, align: bool, n: nat): (f: Fetched)
    ensures f.st == Ok ==> |f.val| == n
  {
    match r
    case Reading(bits, pos) =>
      var p := if align then AlignUp(pos) else pos;
      if p + n <= |bits| then Fetched(Reading(bits, p + n), Ok, bits[p..p + n])
      else Fetched(ReadFailed, EmptyError, [])
    case ReadFailed => Fetched(r, ErrorStateError, [])
    case ReadClosed => Fetched(r, ClosedError, [])
  }

  /** A segment of n bits; an empty one is no access at all. */
  function Get(r: Reader, align: bool, n: nat): (f: Fetched)
    ensures f.st == Ok ==> |f.val| == n
  {
    if n == 0 then Fetched(r, Ok, []) else Fetch(r, align, n)
  }

  function FetchRun(r: Reader, n: nat): (f: Fetched)
    ensures f.st == Ok ==> |f.val| == n
  {
    Get(r, false, n)
  }

  function FetchBytes(r: Reader, n: nat): (f: Fetched)
    ensures f.st == Ok ==> |f.val| == 8 * n
  {
    Get(r, true, 8 * n)
  }

  ghost predicate WellFormed(r: Reader)
  {
    r.Reading? ==> |r.bits| % 8 == 0 && r.pos <= |r.bits|
  }

  /** The whole bytes that are still to be read. */
  function RestBytes(r: Reader): seq<byte>
    requires r.Reading?
  {
    if AlignUp(r.pos) <= |r.bits| then BitsBytes(r.bits[AlignUp(r.pos)..]) else []
  }

  /** Number of characters before the first NUL. */
  function StringLen(d: seq<byte>): (n: nat)
    ensures n <= |d|
    ensures (forall i :: 0 <= i < n ==> d[i] != 0) && (n < |d| ==> d[n] == 0)
  {
    if d == [] || d[0] == 0 then 0 else 1 + StringLen(d[1..])
  }

  predicate EndsLine(c: byte) { c == 0 || c == 0x0A || c == 0x0D }

  /** Number of characters before the first NUL, line feed or carriage return. */
  function LineLen(d: seq<byte>): (n: nat)
    ensures n <= |d|
    ensures (forall i :: 0 <= i < n ==> !EndsLine(d[i])) && (n < |d| ==> EndsLine(d[n]))
  {
    if d == [] || EndsLine(d[0]) then 0 else 1 + LineLen(d[1..])
  }

  /** Number of bytes a line takes, including NUL, LF, CR or CR LF behind it. */
  function LineSize(d: seq<byte>): (n: nat)
    ensures LineLen(d) <= n <= |d|
  {
    var n := LineLen(d);
    if n == |d| then n
    else if d[n] == 0x0D && n + 1 < |d| && d[n + 1] == 0x0A then n + 2
    else n + 1
  }

  datatype ReadText = ReadText(rd: Reader, st: Status, text: seq<byte>)

  function ReadString(r: Reader): ReadText
  {
    match r
    case Reading(bits, pos) =>
      var d := RestBytes(r);
      var n := StringLen(d);
      if d == [] then ReadText(ReadFailed, EmptyError, [])
      else if n == |d| then ReadText(ReadFailed, NoTerminator, [])
      else ReadText(Reading(bits, AlignUp(pos) + 8 * (n + 1)), Ok, d[..n])
    case ReadFailed => ReadText(r, ErrorStateError, [])
    case ReadClosed => ReadText(r, ClosedError, [])
  }

  function ReadLine(r: Reader): ReadText
  {
    match r
    case Reading(bits, pos) =>
      var d := RestBytes(r);
      if d == [] then ReadText(ReadFailed, EmptyError, [])
      else ReadText(Reading(bits, AlignUp(pos) + 8 * LineSize(d)), Ok, d[..LineLen(d)])
    case ReadFailed => ReadText(r, ErrorStateError, [])
    case ReadClosed => ReadText(r, ClosedError, [])
  }

  // ---------------------------------------------------------------- integers as bytes

  /** The k bytes of v, least significant first. */
  function LeBytes(v: nat, k: nat): (r: seq<byte>)
    ensures |r| == k
    decreases k
  {
    if k == 0 then [] else [v % 256] + LeBytes(v / 256, k - 1)
  }

  function LeValue(d: seq<byte>): nat
  {
    if d == [] then 0 else d[0] + 256 * LeValue(d[1..])
  }

  function Reverse<T>(d: seq<T>): (r: seq<T>)
    ensures |r| == |d|
  {
    if d == [] then [] else Reverse(d[1..]) + [d[0]]
  }

  lemma {:induction false} ReverseAt<T>(d: seq<T>, i: nat)
    requires i < |d|
    ensures Reverse(d)[i] == d[|d| - 1 - i]
  {
    if i < |d| - 1 { ReverseAt(d[1..], i); }
  }

  function Ordered(d: seq<byte>, e: Endian): (r: seq<byte>)
    ensures |r| == |d|
  {
    if e == Little then d else Reverse(d)
  }

  /** The k bytes d are v in byte order e: byte i is a digit of v to the base 256, counted from the low end in little-endian
      order and from the high end in big-endian order. */
  ghost predicate Digits(d: seq<byte>, v: nat, k: nat, e: Endian)
  {
    |d| == k && forall i :: 0 <= i < k ==> d[i] == v / Pow2(8 * if e == Little then i else k - 1 - i) % 256
  }

  /** The bytes of k-byte integers, one behind the other. */
  ghost predicate AllDigits(d: seq<byte>, vs: seq<nat>, k: nat, e: Endian)
  {
    && |d| == |vs| * k
    && forall m :: 0 <= m < |vs| ==> m * k + k <= |d| && Digits(d[m * k..m * k + k], vs[m], k, e)
  }

  // ---------------------------------------------------------------- laws

  lemma {:induction false} BytesBitsAppend(a: seq<byte>, b: seq<byte>)
    ensures BytesBits(a + b) == BytesBits(a) + BytesBits(b)
  {
    if a == [] {
      assert a + b == b;
    } else {
      assert (a + b)[1..] == a[1..] + b;
      BytesBitsAppend(a[1..], b);
    }
  }

  /** The bits of mem in byte positions i..j. */
  lemma {:induction false} BytesSlice(mem: seq<byte>, i: nat, j: nat)
    requires i <= j <= |mem|
    ensures BytesBits(mem)[8 * i..8 * j] == BytesBits(mem[i..j])
  {
    hide BytesBits;
    var a, b, c := mem[..i], mem[i..j], mem[j..];
    assert mem == a + (b + c);
    BytesBitsAppend(a, b + c);
    BytesBitsAppend(b, c);
  }

  /** The first bit is the least significant one. */
  lemma {:induction false} BitDigit(v: nat, w: nat, i: nat)
    requires i < w
    ensures ToBits(v, w)[i] == (v / Pow2(i) % 2 == 1)
    decreases i
  {
    if i > 0 {
      BitDigit(v / 2, w - 1, i - 1);
      HalfDiv(v, Pow2(i - 1));
    }
  }

  lemma HalfDiv(v: nat, p: nat)
    requires p > 0
    ensures v / 2 / p == v / (2 * p)
  {
    var a, q, r := v / 2, v / 2 / p, v / 2 % p;
    assert v == 2 * a + v % 2 && a == q * p + r;
    DivUnique(v, q, 2 * p, 2 * r + v % 2);
  }

  /** Bit j of byte i. */
  lemma {:induction false} BytesBitsAt(d: seq<byte>, i: nat, j: nat)
    requires i < |d| && j < 8
    ensures BytesBits(d)[8 * i + j] == (d[i] / Pow2(j) % 2 == 1)
    decreases i
  {
    hide ToBits, Pow2;
    if i > 0 {
      BytesBitsAt(d[1..], i - 1, j);
    } else {
      BitDigit(d[0], 8, j);
    }
  }

  lemma BytesBitsOne(c: byte)
    ensures BytesBits([c]) == ToBits(c, 8)
  {
    assert [c][1..] == [];
  }

  lemma {:induction false} BytesRoundTrip(d: seq<byte>)
    ensures BitsBytes(BytesBits(d)) == d
  {
    if d != [] {
      var s := BytesBits(d);
      assert s[..8] == ToBits(d[0], 8) && s[8..] == BytesBits(d[1..]);
      FromToBits(d[0], 8);
      assert Pow2(8) == 256;
      LowId(d[0], 8);
      BytesRoundTrip(d[1..]);
    }
  }

  lemma {:induction false} BitsRoundTrip(s: seq<bool>)
    requires |s| % 8 == 0
    ensures BytesBits(BitsBytes(s)) == s
  {
    if s != [] {
      ToFromBits(s[..8]);
      BitsRoundTrip(s[8..]);
      assert BitsBytes(s)[1..] == BitsBytes(s[8..]);
      assert s == s[..8] + s[8..];
    }
  }

  lemma FewPacked(s: seq<bool>)
    requires 1 <= |s| <= 8
    ensures BytesBits(PackBits(s)) == Aligned(s)
  {
    hide FromBits, ToBits, Pow2, BytesBits, Low;
    FewBits(s);
    assert PackBits(s) == [FromBits(s)];
    BytesBitsOne(FromBits(s));
    PaddedByte(s);
  }

  /** Bits stored as one byte are the bits padded with zeros. */
  lemma PaddedByte(s: seq<bool>)
    requires 1 <= |s| <= 8
    ensures ToBits(FromBits(s), 8) == Aligned(s)
  {
    hide FromBits, ToBits, Pow2, Low, Const;
    var v := FromBits(s);
    ToFromBits(s);
    LowId(v, |s|);
    ToBitsLow(v, |s|, 8 - |s|);
    PadSmall(|s|);
    assert Const(8 - |s|, false) == seq(8 - |s|, _ => false) by { ConstIs(8 - |s|); }
  }

  lemma PadSmall(n: nat)
    requires 1 <= n <= 8
    ensures Pad(n) == 8 - n
  {
    if n < 8 { assert n % 8 == n; }
  }

  lemma PadShift(n: nat)
    ensures Pad(n + 8) == Pad(n)
  {
    assert (n + 8) % 8 == n % 8;
  }

  lemma ConstIs(n: nat)
    ensures Const(n, false) == seq(n, _ => false)
  {
  }

  lemma AlignedSplit(s: seq<bool>)
    requires |s| > 8
    ensures Aligned(s) == s[..8] + Aligned(s[8..])
  {
    hide Pad, Const;
    PadShift(|s| - 8);
    assert s == s[..8] + s[8..];
  }

  lemma {:induction false} PackedBits(s: seq<bool>)
    ensures BytesBits(PackBits(s)) == Aligned(s)
  {
    hide FromBits, ToBits, Pow2, Low;
    if s == [] {
      assert Aligned(s) == [];
    } else if |s| <= 8 {
      FewPacked(s);
    } else {
      FewBits(s[..8]);
      PackedBits(s[8..]);
      ToFromBits(s[..8]);
      assert PackBits(s)[1..] == PackBits(s[8..]);
      AlignedSplit(s);
    }
  }

  lemma {:induction false} PackAppend(s: seq<bool>, t: seq<bool>)
    requires |s| % 8 == 0
    ensures PackBits(s + t) == PackBits(s) + PackBits(t)
  {
    hide FromBits;
    if s == [] {
      assert s + t == t;
    } else if t == [] {
      assert s + t == s;
    } else {
      assert (s + t)[..8] == s[..8] && (s + t)[8..] == s[8..] + t;
      PackAppend(s[8..], t);
      FewBits(s[..8]);
      assert s[8..] == [] ==> s[..8] == s;
    }
  }

  lemma {:induction false} LeRoundTrip(v: nat, k: nat)
    requires v < Pow2(8 * k)
    ensures LeValue(LeBytes(v, k)) == v
    decreases k
  {
    if k > 0 {
      Pow2Byte(8 * k - 8);
      LeRoundTrip(v / 256, k - 1);
    }
  }

  lemma {:induction false} LeValueRange(d: seq<byte>)
    ensures LeValue(d) < Pow2(8 * |d|)
    ensures LeBytes(LeValue(d), |d|) == d
  {
    if d != [] {
      LeValueRange(d[1..]);
      Pow2Byte(8 * |d| - 8);
      assert LeValue(d) % 256 == d[0] && LeValue(d) / 256 == LeValue(d[1..]);
    }
  }

  lemma DivDiv(v: nat, p: nat)
    requires p > 0
    ensures v / 256 / p == v / (256 * p)
  {
    var a, q, r := v / 256, v / 256 / p, v / 256 % p;
    assert v == 256 * a + v % 256 && a == q * p + r;
    DivUnique(v, q, 256 * p, 256 * r + v % 256);
  }

  lemma DivUnique(v: nat, q: nat, p: nat, r: nat)
    requires r < p && v == q * p + r
    ensures v / p == q
  {
    var x := v / p;
    assert v == x * p + v % p && 0 <= v % p < p;
    NextMultiple(x, q, p);
    NextMultiple(q, x, p);
  }

  lemma NextMultiple(x: nat, q: nat, p: nat)
    ensures x < q ==> x * p + p <= q * p
  {
    if x < q {
      var y := q - x - 1;
      assert q * p == (x + 1 + y) * p == x * p + p + y * p;
    }
  }

  lemma NoPower()
    ensures Pow2(8 * 0) == 1
  {
  }

  lemma {:induction false} LeBytesDigit(v: nat, k: nat, i: nat)
    requires i < k
    ensures LeBytes(v, k)[i] == v / Pow2(8 * i) % 256
    decreases i
  {
    hide Pow2;
    if i > 0 {
      LeBytesDigit(v / 256, k - 1, i - 1);
      Pow2Byte(8 * (i - 1));
      DivDiv(v, Pow2(8 * (i - 1)));
    } else {
      NoPower();
    }
  }

  /** What the byte order means. */
  lemma OrderedDigits(v: nat, k: nat, e: Endian)
    ensures Digits(Ordered(LeBytes(v, k), e), v, k, e)
  {
    hide LeBytes, Pow2, Reverse;
    forall i | 0 <= i < k
      ensures Ordered(LeBytes(v, k), e)[i] == v / Pow2(8 * if e == Little then i else k - 1 - i) % 256
    {
      LeBytesDigit(v, k, if e == Little then i else k - 1 - i);
      ReverseAt(LeBytes(v, k), i);
    }
  }

  lemma {:induction false} ReverseAppend<T>(a: seq<T>, b: seq<T>)
    ensures Reverse(a + b) == Reverse(b) + Reverse(a)
  {
    if a == [] {
      assert a + b == b;
    } else {
      assert (a + b)[1..] == a[1..] + b;
      ReverseAppend(a[1..], b);
    }
  }

  lemma {:induction false} ReverseTwice<T>(d: seq<T>)
    ensures Reverse(Reverse(d)) == d
  {
    if d != [] {
      ReverseAppend(Reverse(d[1..]), [d[0]]);
      ReverseTwice(d[1..]);
      assert Reverse([d[0]]) == [d[0]];
    }
  }

  lemma AlignedId(t: seq<bool>)
    ensures |Aligned(t)| == AlignUp(|t|)
    ensures |t| % 8 == 0 ==> Aligned(t) == t
  {
    if |t| % 8 == 0 { assert Const(0, false) == []; }
  }

  /** Two accesses of which the second needs no padding are one access. */
  lemma AppendAppend(w: Writer, align: bool, a: seq<bool>, align2: bool, b: seq<bool>)
    requires align2 ==> align && |a| % 8 == 0
    ensures var (w1, s1) := Append(w, align, a);
            Append(w, align, a + b) == if s1 == Ok then Append(w1, align2, b) else (w1, s1)
  {
    hide Const, Pad, AlignUp, Aligned;
    if w.Writing? {
      AlignedId(w.out);
      AlignUpWhole(|w.out|);
      var t := Target(w.out, align, a);
      assert Target(w.out, align, a + b) == t + b;
      assert align2 ==> Target(t, true, b) == t + b by { AlignedId(t); }
    }
  }

  lemma PushBytesTwice(w: Writer, a: seq<byte>, b: seq<byte>)
    ensures var (w1, s1) := PushBytes(w, a);
            PushBytes(w, a + b) == if s1 == Ok then PushBytes(w1, b) else (w1, s1)
  {
    BytesBitsAppend(a, b);
    assert a == [] ==> a + b == b;
    assert b == [] ==> a + b == a;
    AppendAppend(w, true, BytesBits(a), true, BytesBits(b));
  }

  lemma PushOne(w: Writer, c: byte)
    ensures PushBytes(w, [c]) == PushByte(w, c)
  {
    BytesBitsOne(c);
  }

  lemma PushRunTwice(w: Writer, a: seq<bool>, b: seq<bool>)
    ensures var (w1, s1) := PushRun(w, a);
            PushRun(w, a + b) == if s1 == Ok then PushRun(w1, b) else (w1, s1)
  {
    assert a == [] ==> a + b == b;
    assert b == [] ==> a + b == a;
    AppendAppend(w, false, a, false, b);
  }

  function Then(f: Fetched, g: Fetched): Fetched
  {
    if f.st != Ok then f else if g.st != Ok then g else g.(val := f.val + g.val)
  }

  lemma FetchFetch(r: Reader, align: bool, n: nat, align2: bool, m: nat)
    requires align2 ==> align && n % 8 == 0
    ensures var f := Fetch(r, align, n); Fetch(r, align, n + m) == Then(f, Fetch(f.rd, align2, m))
  {
    hide AlignUp, Pad;
    if r.Reading? {
      var p := if align then AlignUp(r.pos) else r.pos;
      var q := p + n;
      if align2 {
        AlignUpWhole(r.pos);
        AlignedSum(p, n);
      }
      if q + m <= |r.bits| { Joined(r.bits, p, q, q + m); }
    }
  }

  lemma Joined(s: seq<bool>, a: nat, b: nat, c: nat)
    requires a <= b <= c <= |s|
    ensures s[a..c] == s[a..b] + s[b..c]
  {
  }

  lemma AlignedSum(p: nat, n: nat)
    requires p % 8 == 0 && n % 8 == 0
    ensures AlignUp(p + n) == p + n
  {
  }

  lemma NoBytesFetched(r: Reader)
    ensures FetchBytes(r, 0) == Fetched(r, Ok, BytesBits([])) == Fetched(r, Ok, [])
  {
  }

  lemma FetchBytesTwice(r: Reader, n: nat, m: nat)
    ensures var f := FetchBytes(r, n); FetchBytes(r, n + m) == Then(f, FetchBytes(f.rd, m))
  {
    FetchFetch(r, true, 8 * n, true, 8 * m);
    assert FetchBytes(r, n).val + [] == FetchBytes(r, n).val;
  }

  lemma FetchRunTwice(r: Reader, n: nat, m: nat)
    ensures var f := FetchRun(r, n); FetchRun(r, n + m) == Then(f, FetchRun(f.rd, m))
  {
    FetchFetch(r, false, n, false, m);
    assert FetchRun(r, n).val + [] == FetchRun(r, n).val;
  }

  lemma PutIs(out: seq<bool>, cap: nat, align: bool, bits: seq<bool>)
    requires |out| <= cap
    ensures Put(Writing(out, cap), align, bits) ==
            if |Extended(out, align, bits)| <= cap then (Writing(Extended(out, align, bits), cap), Ok) else (WriteFailed, FullError)
  {
  }

  lemma ExtendedGrows(out: seq<bool>, align: bool, bits: seq<bool>)
    ensures out <= Extended(out, align, bits)
    ensures |Extended(out, align, bits)| ==
            if bits == [] then |out| else (if align then AlignUp(|out|) else |out|) + |bits|
  {
    hide Pad, Const;
    AlignedId(out);
    assert Extended(out, align, bits)[..|out|] == out;
  }

  /** What was put at the end of `out` is got back from a stream that starts with the result. */
  lemma GetBack(all: seq<bool>, out: seq<bool>, align: bool, bits: seq<bool>)
    requires Extended(out, align, bits) <= all
    ensures Get(Reading(all, |out|), align, |bits|) == Fetched(Reading(all, |Extended(out, align, bits)|), Ok, bits)
  {
    hide Pad, AlignUp, Const;
    var t := Extended(out, align, bits);
    ExtendedGrows(out, align, bits);
    if bits != [] {
      AlignedId(out);
      var p := if align then AlignUp(|out|) else |out|;
      assert |t| == p + |bits| && t[p..p + |bits|] == bits;
      assert all[p..p + |bits|] == t[p..p + |bits|];
    }
  }

  lemma FromEmpty(align: bool, seg: seq<bool>)
    ensures Extended([], align, seg) == seg
  {
    AlignedId([]);
  }

  lemma WholeStream(d: seq<byte>)
    ensures var bits := BytesBits(d);
            && RestBytes(Reading(bits, 0)) == d
            && FetchBytes(Reading(bits, 0), |d|) == Fetched(Reading(bits, |bits|), Ok, bits) && BitsBytes(bits) == d
  {
    hide BytesBits, BitsBytes, AlignUp, Pad, Get, Extended;
    BytesRoundTrip(d);
    var bits := BytesBits(d);
    FromEmpty(true, bits);
    GetBack(bits, [], true, bits);
    AlignedZero();
    assert bits[0..] == bits;
  }

  lemma AlignedZero()
    ensures AlignUp(0) == 0
  {
  }
}
