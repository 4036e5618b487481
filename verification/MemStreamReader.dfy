/**
 MemStreamReader: reads bit- and byte-based data from a block of memory (src/stream/MemStreamReader.cpp).
 The memory is a value: nobody writes to it while it is read.
 */
module MemStreamReaders {
  import opened UInt
  import opened StreamSpec

  datatype ReaderState = Open | Empty | Closed | Error

  datatype Pointer = Null | At(offset: nat)

  /** RemainingNbOfBits. */
  datatype Expectation = Exactly(nBits: nat) | SevenOrLess | MoreThanSeven | AnyNumber

  /** Whether what is left in the stream meets an expectation. */
  function Consumed(r: Reader, expectation: Expectation): Status
  {
    match r
    case Reading(bits, pos) =>
      var left := |bits| - pos;
      if (match expectation
          case SevenOrLess => left <= 7
          case MoreThanSeven => left > 7
          case AnyNumber => true
          case Exactly(n) => left <= 7 && left == n)
      then Ok else RemainingBitsError
    case ReadFailed => ErrorStateError
    case ReadClosed => ClosedError
  }

  /** The bits of the first e bytes of mem. */
  ghost function Bits(mem: seq<byte>, e: nat): (r: seq<bool>)
    ensures e <= |mem| ==> |r| == 8 * e
  {
    if e <= |mem| then BytesBits(mem[..e]) else []
  }

  /** s[lo..hi]. */
  ghost function Cut<T>(s: seq<T>, lo: int, hi: int): (r: seq<T>)
    ensures 0 <= lo <= hi <= |s| ==> |r| == hi - lo
  {
    if 0 <= lo <= hi <= |s| then s[lo..hi] else []
  }

  lemma NoBits()
    ensures FromBits([]) == 0
  {
  }

  class MemStreamReader {
    const mem: seq<byte>
    const endian: Endian
    var state: ReaderState
    var pMem: Pointer           // next byte to be read
    var remainingBytes: nat
    var nbOfBitsInBitData: nat  // bits of the byte read last that are still unread
    var bitData: nat
    ghost var next: nat         // offset of the next byte, also when pMem is Null
    ghost var cached: seq<bool> // the unread bits in bitData

    ghost function End(): nat
      reads this
    {
      next + remainingBytes
    }

    ghost predicate Valid()
      reads this
    {
      state == Open || state == Empty ==>
        && End() <= |mem|
        && pMem == (if remainingBytes == 0 then Null else At(next))
        && nbOfBitsInBitData == |cached| <= 7 && |cached| <= 8 * next
        && bitData == FromBits(cached)
        && cached == Cut(Bits(mem, End()), 8 * next - |cached|, 8 * next)
        && (state == Empty <==> remainingBytes == 0 && nbOfBitsInBitData == 0)
    }

    ghost function Abs(): Reader
      reads this
      requires Valid()
    {
      match state
      case Error => ReadFailed
      case Closed => ReadClosed
      case _ => Reading(Bits(mem, End()), 8 * next - nbOfBitsInBitData)
    }

    /** A reader for the `size` bytes at p, which are those at offset `start` of data. */
    constructor (data: seq<byte>, p: Pointer, size: nat, e: Endian, ghost start: nat)
      requires start + size <= |data| && (size != 0 ==> p == At(start))
      ensures Valid() && mem == data && endian == e
      ensures Abs() == Reading(BytesBits(data[..start + size]), 8 * start)
    {
      hide BytesBits, FromBits, Pow2;
      NoBits();
      mem, endian := data, e;
      state := if size == 0 then Empty else Open;
      pMem := if size == 0 then Null else p;
      remainingBytes, nbOfBitsInBitData, bitData := size, 0, 0;
      next, cached := start, [];
    }

    lemma AlignedPos(p: nat, nb: nat)
      requires nb <= 7 && nb <= 8 * p
      ensures AlignUp(8 * p - nb) == 8 * p
    {
    }

    /** Discards the unread bits of the byte read last. */
    method Discard()
      requires Valid()
      modifies this`nbOfBitsInBitData, this`bitData, this`cached
      ensures nbOfBitsInBitData == 0 && bitData == 0 && cached == []
    {
      nbOfBitsInBitData, bitData, cached := 0, 0, [];
    }

    method Close()
      requires Valid()
      modifies this
      ensures Valid() && Abs() == ReadClosed
    {
      pMem := Null;
      state := Closed;
    }

    /** EnsureAllDataConsumed. */
    method EnsureAllDataConsumed(expectation: Expectation) returns (st: Status)
      requires Valid()
      ensures st == Consumed(Abs(), expectation)
    {
      match state
      case Open | Empty =>
        match expectation {
          case SevenOrLess => if remainingBytes != 0 { return RemainingBitsError; }
          case MoreThanSeven => if remainingBytes == 0 { return RemainingBitsError; }
          case AnyNumber =>
          case Exactly(n) => if remainingBytes != 0 || nbOfBitsInBitData != n { return RemainingBitsError; }
        }
        return Ok;
      case Closed => return ClosedError;
      case Error => return ErrorStateError;
    }

    /** Moves n bytes forward; no bits are cached. */
    method Advance(n: nat)
      requires n <= remainingBytes && End() <= |mem| && nbOfBitsInBitData == 0 && bitData == 0 && cached == []
      requires (state == Open || state == Empty) && pMem == (if remainingBytes == 0 then Null else At(next))
      modifies this
      ensures Valid() && (state == Open || state == Empty) && End() == old(End()) && next == old(next) + n
      ensures nbOfBitsInBitData == 0 && cached == []
    {
      hide BytesBits;
      next := next + n;
      remainingBytes := remainingBytes - n;
      // empty now?
      if remainingBytes == 0 {
        pMem := Null;
        state := Empty;
      } else {
        pMem := At(pMem.offset + n);
        state := Open;
      }
    }

    /** Reads n > 0 bytes that are there; no bits are cached. */
    method Copy(n: nat) returns (d: seq<byte>)
      requires 0 < n <= remainingBytes && End() <= |mem| && nbOfBitsInBitData == 0 && bitData == 0 && cached == []
      requires (state == Open || state == Empty) && pMem == At(next)
      modifies this
      ensures Valid() && (state == Open || state == Empty) && End() == old(End()) && next == old(next) + n
      ensures nbOfBitsInBitData == 0
      ensures |d| == n && BytesBits(d) == Bits(mem, End())[8 * old(next)..8 * (old(next) + n)]
    {
      hide BytesBits;
      ghost var e, p := End(), next;
      d := mem[pMem.offset..pMem.offset + n];
      BytesSlice(mem[..e], p, p + n);
      assert mem[..e][p..p + n] == d;
      Advance(n);
    }

    /** Pop(): one byte. */
    method Pop() returns (st: Status, c: byte)
      requires Valid()
      modifies this
      ensures Valid()
      ensures var f := Fetch(old(Abs()), true, 8);
              Abs() == f.rd && st == f.st && (st == Ok ==> ToBits(c, 8) == f.val && c == FromBits(f.val))
    {
      hide BytesBits, ToBits;
      c := 0;
      var d;
      st, d := PopBlock(1);
      if st == Ok {
        c := d[0];
        BytesBitsOne(c);
        assert d == [c];
        ByteBack(c);
      }
    }

    lemma ByteBack(c: byte)
      ensures FromBits(ToBits(c, 8)) == c
    {
      FromToBits(c, 8);
      LowByte(c);
    }

    lemma LowByte(c: byte)
      ensures Low(c, 8) == c
    {
      assert Pow2(8) == 256;
      LowId(c, 8);
    }

    /** Pop(void*, size_t): n bytes. */
    method PopBlock(n: nat) returns (st: Status, d: seq<byte>)
      requires Valid()
      modifies this
      ensures Valid()
      ensures var f := FetchBytes(old(Abs()), n);
              Abs() == f.rd && st == f.st && (st == Ok ==> |d| == n && BytesBits(d) == f.val)
    {
      hide BytesBits, ToBits, FromBits, Pow2, AlignUp, Pad;
      d := [];
      if n == 0 { EmptyBytes(); return Ok, []; }
      if state == Closed { return ClosedError, []; }
      if state == Error { return ErrorStateError, []; }
      AlignedPos(next, nbOfBitsInBitData);
      ghost var e, p := End(), next;
      // cached bits are lost
      Discard();
      // does n exceed the remaining number of bytes?
      if n > remainingBytes {
        pMem := Null;
        state := Error;
        return EmptyError, [];
      }
      d := Copy(n);
      assert 8 * (p + n) == 8 * p + 8 * n;
      return Ok, d;
    }

    lemma EmptyBytes()
      ensures BytesBits([]) == []
    {
    }

    /** PopBits(n): n bits, the first one in the least significant position. */
    method PopBits(n: nat) returns (st: Status, v: byte)
      requires Valid()
      modifies this
      ensures Valid()
      ensures var f := FetchRun(old(Abs()), n);
              n <= 8 ==> Abs() == f.rd && st == f.st && (st == Ok ==> v == FromBits(f.val))
      ensures n > 8 ==> Abs() == old(Abs()) && st == InvalidArgument
    {
      hide BytesBits, ToBits, FromBits, Pow2, Or, And, Shl, Shr, Low;
      v := 0;
      if n == 0 { NoBits(); return Ok, 0; }
      if n > 8 { return InvalidArgument, 0; }
      if state == Closed { return ClosedError, 0; }
      if state == Error { return ErrorStateError, 0; }
      ghost var e, pos := End(), 8 * next - nbOfBitsInBitData;
      // the cache does not suffice
      if n > nbOfBitsInBitData {
        if pMem == Null {
          state := Error;
          return EmptyError, 0;
        }
        Refill(e, pos);
      }
      v := Take(n, e, pos);
      return Ok, v;
    }

    /** bitData holds the bits from position pos up to the next byte of a stream that ends at byte e. */
    ghost predicate Loaded(e: nat, pos: nat)
      reads this
    {
      && End() == e <= |mem|
      && pMem == (if remainingBytes == 0 then Null else At(next))
      && nbOfBitsInBitData == |cached| && pos + |cached| == 8 * next && bitData == FromBits(cached)
      && cached == Cut(Bits(mem, e), pos, 8 * next)
    }

    /** Appends the next byte to bitData. */
    method Refill(ghost e: nat, ghost pos: nat)
      requires Loaded(e, pos) && pMem != Null
      modifies this
      ensures Loaded(e, pos) && nbOfBitsInBitData == old(nbOfBitsInBitData) + 8 && state == old(state)
    {
      hide BytesBits, ToBits, FromBits, Pow2, Or, Shl;
      var c := mem[pMem.offset];
      ghost var all := Bits(mem, e);
      BytesSlice(mem[..e], next, next + 1);
      assert mem[..e][next..next + 1] == [c];
      BytesBitsOne(c);
      Appended(cached, c);
      assert all[pos..8 * next + 8] == cached + ToBits(c, 8);
      bitData := Or(bitData, Shl(c, nbOfBitsInBitData));
      nbOfBitsInBitData := nbOfBitsInBitData + 8;
      cached := cached + ToBits(c, 8);
      next := next + 1;
      remainingBytes := remainingBytes - 1;
      pMem := if remainingBytes == 0 then Null else At(pMem.offset + 1);
    }

    /** Takes n bits out of bitData. */
    method Take(n: nat, ghost e: nat, ghost pos: nat) returns (v: byte)
      requires Loaded(e, pos) && 1 <= n <= 8 && n <= nbOfBitsInBitData <= n + 7
      modifies this
      ensures Valid() && (state == Open || state == Empty) && End() == e && 8 * next - nbOfBitsInBitData == pos + n
      ensures v == FromBits(Bits(mem, e)[pos..pos + n])
    {
      hide BytesBits, ToBits, FromBits, Pow2, And, Shl, Shr;
      ghost var all := Bits(mem, e);
      Taken(cached, n);
      assert cached[..n] == all[pos..pos + n];
      assert cached[n..] == all[pos + n..8 * next];
      v := And(bitData, Shl(1, n) - 1);
      bitData := Shr(bitData, n);
      nbOfBitsInBitData := nbOfBitsInBitData - n;
      cached := cached[n..];
      state := if nbOfBitsInBitData == 0 && pMem == Null then Empty else Open;
    }

    lemma Appended(q: seq<bool>, c: byte)
      ensures Or(FromBits(q), Shl(c, |q|)) == FromBits(q + ToBits(c, 8))
    {
      hide ToBits;
      ByteBack(c);
      OrDisjoint(FromBits(q), c, |q|);
      FromBitsAppend(q, ToBits(c, 8));
    }

    lemma Taken(q: seq<bool>, n: nat)
      requires n <= |q| && n <= 8
      ensures And(FromBits(q), Shl(1, n) - 1) == FromBits(q[..n]) < 256
      ensures Shr(FromBits(q), n) == FromBits(q[n..])
    {
      hide FromBits, Shr, And, Low, Shl;
      assert q == q[..n] + q[n..];
      FromBitsAppend(q[..n], q[n..]);
      ShlSplit(FromBits(q[..n]), FromBits(q[n..]), n);
      AndMask(FromBits(q), n);
      Pow2Mono(n, 8);
      assert Pow2(8) == 256;
    }

    /** Skip(nBits): byte jumps plus shifting of the unread bits. */
    method Skip(nBits: nat) returns (st: Status)
      requires Valid()
      modifies this
      ensures Valid() && Abs() == FetchRun(old(Abs()), nBits).rd && st == FetchRun(old(Abs()), nBits).st
    {
      hide BytesBits, FromBits, Pow2, ToBits, Shr, Bits, Cut;
      if nBits == 0 { return Ok; }
      match state
      case Open =>
        var left := nBits;
        // cached bits come first
        if nbOfBitsInBitData != 0 {
          if left < nbOfBitsInBitData {
            // the cache suffices
            SkipCached(left);
            return Ok;
          }
          left := left - nbOfBitsInBitData;
          DropCached();
          // finished?
          if left == 0 { return Ok; }
        }
        st := SkipBytesAndBits(left);
      case Empty =>
        state := Error;
        return EmptyError;
      case Closed => return ClosedError;
      case Error => return ErrorStateError;
    }

    /** Removes the first n of the unread bits. */
    method SkipCached(n: nat)
      requires Valid() && state == Open && n < nbOfBitsInBitData
      modifies this`bitData, this`nbOfBitsInBitData, this`cached
      ensures Valid() && nbOfBitsInBitData == old(nbOfBitsInBitData) - n
    {
      hide BytesBits, FromBits, Pow2, Shr, Bits;
      Dropped(cached, n);
      bitData := Shr(bitData, n);
      nbOfBitsInBitData := nbOfBitsInBitData - n;
      cached := cached[n..];
    }

    /** Removes all unread bits. */
    method DropCached()
      requires Valid() && state == Open
      modifies this`bitData, this`nbOfBitsInBitData, this`cached, this`state
      ensures Valid() && nbOfBitsInBitData == 0 && state == if pMem == Null then Empty else Open
    {
      hide BytesBits, FromBits, Bits;
      NoBits();
      Discard();
      if pMem == Null { state := Empty; }
    }

    /** Skips whole bytes, then bits of the next one. */
    method SkipBytesAndBits(left: nat) returns (st: Status)
      requires Valid() && (state == Open || state == Empty) && nbOfBitsInBitData == 0 && left > 0
      modifies this
      ensures Valid()
      ensures if left <= 8 * old(remainingBytes) then
                && st == Ok && (state == Open || state == Empty) && End() == old(End())
                && 8 * next - nbOfBitsInBitData == 8 * old(next) + left
              else st == EmptyError && state == Error
    {
      hide BytesBits, FromBits, Pow2, ToBits, Shr, Bits, Cut;
      if pMem == Null {
        state := Error;
        return EmptyError;
      }
      var skipBytes, skipBits := left / 8, left % 8;
      // skip bytes
      if skipBytes > remainingBytes {
        pMem := Null;
        state := Error;
        return EmptyError;
      }
      NoBits();
      Advance(skipBytes);
      // skip bits
      if skipBits != 0 {
        if pMem == Null {
          state := Error;
          return EmptyError;
        }
        SkipInByte(skipBits);
      }
      return Ok;
    }

    lemma Dropped(q: seq<bool>, n: nat)
      requires n <= |q|
      ensures Shr(FromBits(q), n) == FromBits(q[n..])
    {
      hide FromBits, Pow2, Shr, Low, Shl;
      assert q == q[..n] + q[n..];
      FromBitsAppend(q[..n], q[n..]);
      ShlSplit(FromBits(q[..n]), FromBits(q[n..]), n);
    }

    /** The bits of one byte from bit k on. */
    lemma BitsOfByte(e: nat, p: nat, k: nat)
      requires p < e <= |mem| && k <= 8
      ensures ToBits(mem[p], 8)[k..] == Cut(Bits(mem, e), 8 * p + k, 8 * (p + 1))
    {
      hide BytesBits, ToBits;
      BytesSlice(mem[..e], p, p + 1);
      assert mem[..e][p..p + 1] == [mem[p]];
      BytesBitsOne(mem[p]);
      assert Bits(mem, e)[8 * p..8 * (p + 1)][k..] == Bits(mem, e)[8 * p + k..8 * (p + 1)];
    }

    /** Loads the next byte without its first skipBits bits. */
    method SkipInByte(skipBits: nat)
      requires Valid() && (state == Open || state == Empty) && pMem != Null && nbOfBitsInBitData == 0
      requires 1 <= skipBits <= 7
      modifies this
      ensures Valid() && state == Open && End() == old(End())
      ensures 8 * next - nbOfBitsInBitData == 8 * old(next) + skipBits
    {
      hide BytesBits, FromBits, Pow2, ToBits, Shr;
      var c := mem[pMem.offset];
      hide Bits, Cut;
      BitsOfByte(End(), next, skipBits);
      ByteBack(c);
      Dropped(ToBits(c, 8), skipBits);
      bitData := Shr(c, skipBits);
      nbOfBitsInBitData := 8 - skipBits;
      cached := ToBits(c, 8)[skipBits..];
      next := next + 1;
      remainingBytes := remainingBytes - 1;
      pMem := if remainingBytes == 0 then Null else At(pMem.offset + 1);
    }

    /** Skip of StreamReaderBase: reads the bits and drops them. */
    method SkipByReading(nBits: nat) returns (st: Status)
      requires Valid()
      modifies this
      ensures Valid() && Abs() == FetchRun(old(Abs()), nBits).rd && st == FetchRun(old(Abs()), nBits).st
    {
      hide FromBits, Pow2, FetchRun, MemStreamReader.Valid, MemStreamReader.Abs;
      ghost var r := Abs();
      var left: nat := nBits;
      NoRun(r);
      while left >= 8
        invariant left <= nBits && Valid()
        invariant FetchRun(r, nBits - left).st == Ok && Abs() == FetchRun(r, nBits - left).rd
      {
        FetchRunTwice(r, nBits - left, 8);
        FetchRunTwice(r, nBits - left + 8, left - 8);
        var v;
        st, v := PopBits(8);
        if st != Ok { return; }
        left := left - 8;
      }
      FetchRunTwice(r, nBits - left, left);
      if left != 0 {
        var v;
        st, v := PopBits(left);
      } else {
        st := Ok;
      }
    }

    lemma NoRun(r: Reader)
      ensures FetchRun(r, 0) == Fetched(r, Ok, [])
    {
    }

    /** SubStream(n): a reader for the next n bytes, which are skipped here. */
    method SubStream(n: nat) returns (st: Status, sub: MemStreamReader?)
      requires Valid()
      modifies this
      ensures Valid()
      ensures match old(Abs())
              case Reading(bits, pos) =>
                if AlignUp(pos) + 8 * n <= |bits| then
                  && st == Ok && sub != null && sub.Valid() && sub.endian == endian
                  && Abs() == Reading(bits, AlignUp(pos) + 8 * n)
                  && sub.Abs() == Reading(bits[..AlignUp(pos) + 8 * n], AlignUp(pos))
                else st == EmptyError && Abs() == old(Abs())
              case ReadFailed => st == ErrorStateError && Abs() == ReadFailed
              case ReadClosed => st == ClosedError && Abs() == ReadClosed
    {
      hide BytesBits, FromBits, Pow2, AlignUp, Pad, Bits, Cut, MemStreamReader.Valid, MemStreamReader.Abs;
      AbsIs();
      sub := null;
      if state == Closed { return ClosedError, null; }
      if state == Error { return ErrorStateError, null; }
      AlignedPos(next, nbOfBitsInBitData);
      ghost var r, p := Abs(), 8 * next;
      assert r == Reading(Bits(mem, End()), r.pos) && AlignUp(r.pos) == p && |r.bits| == p + 8 * remainingBytes;
      if n > remainingBytes { return EmptyError, null; }
      Shortened(End(), next + n);
      sub := SubReader(n);
      SkipBytesOnly(n);
      assert Abs() == Reading(r.bits, p + 8 * n) && sub.Abs() == Reading(r.bits[..p + 8 * n], p);
      return Ok, sub;
    }

    /** What the abstraction looks like in each state. */
    lemma AbsIs()
      requires Valid()
      ensures match state
              case Error => Abs() == ReadFailed
              case Closed => Abs() == ReadClosed
              case _ =>
                && nbOfBitsInBitData <= 7 && nbOfBitsInBitData <= 8 * next && End() <= |mem| && |Bits(mem, End())| == 8 * End()
                && Abs() == Reading(Bits(mem, End()), 8 * next - nbOfBitsInBitData)
    {
      hide Bits, Cut;
    }

    /** A reader for the next n bytes. */
    method SubReader(n: nat) returns (sub: MemStreamReader)
      requires Valid() && (state == Open || state == Empty) && n <= remainingBytes
      ensures fresh(sub) && sub.Valid() && sub.endian == endian && sub.Abs() == Reading(Bits(mem, next + n), 8 * next)
    {
      hide BytesBits, FromBits, Cut;
      sub := new MemStreamReader(mem, pMem, n, endian, next);
    }

    /** Drops the unread bits and the next n bytes. */
    method SkipBytesOnly(n: nat)
      requires Valid() && (state == Open || state == Empty) && n <= remainingBytes
      modifies this
      ensures Valid() && Abs() == Reading(Bits(mem, old(End())), 8 * (old(next) + n))
    {
      hide BytesBits, FromBits, Bits, Cut;
      Discard();
      NoBits();
      Advance(n);
    }

    lemma Shortened(e: nat, e': nat)
      requires e' <= e <= |mem|
      ensures Bits(mem, e)[..8 * e'] == Bits(mem, e')
    {
      hide BytesBits;
      BytesSlice(mem[..e], 0, e');
      assert mem[..e][0..e'] == mem[..e'];
    }

    lemma KeptBits(e: nat, e': nat, lo: nat, hi: nat)
      requires e' <= e <= |mem| && lo <= hi <= 8 * e'
      ensures Cut(Bits(mem, e'), lo, hi) == Cut(Bits(mem, e), lo, hi)
    {
      hide BytesBits;
      Shortened(e, e');
      assert Bits(mem, e)[..8 * e'][lo..hi] == Bits(mem, e)[lo..hi];
    }

    /** Shrink: gives up all but the next newRemainingBytes bytes; unread bits of the current byte stay. */
    method Shrink(newRemainingBytes: nat) returns (st: Status)
      requires Valid()
      modifies this
      ensures Valid()
      ensures match old(Abs())
              case Reading(bits, pos) =>
                if AlignUp(pos) + 8 * newRemainingBytes <= |bits| then
                  st == Ok && Abs() == Reading(bits[..AlignUp(pos) + 8 * newRemainingBytes], pos)
                else st == InvalidArgument && Abs() == old(Abs())
              case ReadFailed => st == ErrorStateError && Abs() == ReadFailed
              case ReadClosed => st == ClosedError && Abs() == ReadClosed
    {
      hide Bits, Cut, BytesBits, FromBits, Pow2, ToBits, AlignUp, Pad, Aligned;
      if state == Closed { return ClosedError; }
      if state == Error { return ErrorStateError; }
      AlignedPos(next, nbOfBitsInBitData);
      ghost var r, p := Abs(), 8 * next;
      assert r == Reading(Bits(mem, End()), r.pos) && AlignUp(r.pos) == p && |r.bits| == p + 8 * remainingBytes;
      if newRemainingBytes > remainingBytes { return InvalidArgument; }
      ghost var e := next + newRemainingBytes;
      Shortened(End(), e);
      assert r.bits[..p + 8 * newRemainingBytes] == Bits(mem, e);
      KeptBits(End(), e, 8 * next - |cached|, 8 * next);
      remainingBytes := newRemainingBytes;
      if remainingBytes == 0 {
        pMem := Null;
        if nbOfBitsInBitData == 0 { state := Empty; }
      }
      return Ok;
    }

    /** The bytes from the read position to the end. */
    lemma RestIs(e: nat)
      requires Valid() && (state == Open || state == Empty) && e == End()
      ensures WellFormed(Abs()) && RestBytes(Abs()) == mem[next..e]
    {
      hide BytesBits, BitsBytes, AlignUp, Pad;
      AlignedPos(next, nbOfBitsInBitData);
      BytesSlice(mem[..e], next, e);
      assert mem[..e][next..e] == mem[next..e];
      assert Bits(mem, e)[8 * next..8 * e] == Bits(mem, e)[8 * next..];
      BytesRoundTrip(mem[next..e]);
    }

    method RemainingBytes() returns (st: Status, n: nat)
      requires Valid()
      ensures match Abs()
              case Reading(_, _) => st == Ok && n == |RestBytes(Abs())|
              case ReadFailed => st == ErrorStateError
              case ReadClosed => st == ClosedError
    {
      if state == Open || state == Empty { RestIs(End()); }
      match state
      case Open | Empty => return Ok, remainingBytes;
      case Closed => return ClosedError, 0;
      case Error => return ErrorStateError, 0;
    }

    /** Read_string. */
    method ReadString() returns (st: Status, str: seq<byte>)
      requires Valid()
      modifies this
      ensures Valid() && WellFormed(old(Abs()))
      ensures ReadText(Abs(), st, str) == StreamSpec.ReadString(old(Abs()))
    {
      hide Bits, Cut, BytesBits, BitsBytes, FromBits, Pow2, AlignUp, Pad, RestBytes, StringLen;
      str := [];
      if state == Closed { return ClosedError, []; }
      if state == Error { return ErrorStateError, []; }
      RestIs(End());
      AlignedPos(next, nbOfBitsInBitData);
      if state == Empty {
        state := Error;
        return EmptyError, [];
      }
      // cached bits are lost
      Discard();
      if pMem == Null {
        state := Error;
        return EmptyError, [];
      }
      var n := ScanString(pMem.offset, remainingBytes);
      if n == remainingBytes {
        pMem, state := Null, Error;
        return NoTerminator, [];
      }
      assert mem[pMem.offset..pMem.offset + remainingBytes] == mem[next..End()];
      str := mem[pMem.offset..pMem.offset + n];
      assert str == mem[next..End()][..n];
      Advance(n + 1);
      return Ok, str;
    }

    /** Looks for the NUL-terminator among the size bytes at offset p; size if there is none. */
    method ScanString(p: nat, size: nat) returns (n: nat)
      requires 0 < size && p + size <= |mem|
      ensures n == StringLen(mem[p..p + size])
    {
      hide StringLen;
      ghost var rest := mem[p..p + size];
      n := 0;
      while mem[p + n] != 0
        invariant n < size
        invariant forall i :: 0 <= i < n ==> rest[i] != 0
        decreases size - n
      {
        n := n + 1;
        if n == size { break; }
      }
      FirstNul(rest, n);
    }

    lemma FirstNul(d: seq<byte>, n: nat)
      requires n <= |d| && (forall i :: 0 <= i < n ==> d[i] != 0) && (n < |d| ==> d[n] == 0)
      ensures StringLen(d) == n
    {
      hide StringLen;
    }

    /** Read_line. */
    method ReadLine() returns (st: Status, str: seq<byte>)
      requires Valid()
      modifies this
      ensures Valid() && WellFormed(old(Abs()))
      ensures ReadText(Abs(), st, str) == StreamSpec.ReadLine(old(Abs()))
    {
      hide Bits, Cut, BytesBits, BitsBytes, FromBits, Pow2, AlignUp, Pad, RestBytes, LineLen, LineSize;
      str := [];
      if state == Closed { return ClosedError, []; }
      if state == Error { return ErrorStateError, []; }
      RestIs(End());
      AlignedPos(next, nbOfBitsInBitData);
      if state == Empty {
        state := Error;
        return EmptyError, [];
      }
      // cached bits are lost
      Discard();
      if pMem == Null {
        state := Error;
        return EmptyError, [];
      }
      assert mem[pMem.offset..pMem.offset + remainingBytes] == mem[next..End()];
      var n, size := Line(pMem.offset, remainingBytes);
      str := mem[pMem.offset..pMem.offset + n];
      assert str == mem[next..End()][..n];
      Advance(size);
      return Ok, str;
    }

    /** Length of the line at offset p without and with the NUL, CR, LF, or CR LF that ends it. */
    method Line(p: nat, left: nat) returns (n: nat, size: nat)
      requires 0 < left && p + left <= |mem|
      ensures n == LineLen(mem[p..p + left]) <= left && size == LineSize(mem[p..p + left]) <= left
    {
      hide LineLen;
      var c;
      n, c := ScanLine(p, left);
      // consume NUL, CR, LF, or CR LF
      size := n;
      if n != left {
        size := n + 1;
        if c == 0x0D && size != left && mem[p + size] == 0x0A {
          size := size + 1;
        }
      }
    }

    /** Locates the byte behind the last character of the line that starts at offset p; c is the last byte looked at. */
    method ScanLine(p: nat, size: nat) returns (n: nat, c: byte)
      requires 0 < size && p + size <= |mem|
      ensures n == LineLen(mem[p..p + size]) && (n < size ==> c == mem[p + n])
    {
      hide LineLen;
      ghost var rest := mem[p..p + size];
      n, c := 0, mem[p];
      while !EndsLine(c)
        invariant n < size && c == rest[n]
        invariant forall i :: 0 <= i < n ==> !EndsLine(rest[i])
        decreases size - n
      {
        n := n + 1;
        if n == size { break; }
        c := mem[p + n];
      }
      FirstLineEnd(rest, n);
    }

    lemma FirstLineEnd(d: seq<byte>, n: nat)
      requires n <= |d| && (forall i :: 0 <= i < n ==> !EndsLine(d[i])) && (n < |d| ==> EndsLine(d[n]))
      ensures LineLen(d) == n
    {
      hide LineLen;
    }
  }

  /** The abstract value of a readable stream determines its fields: two readers of the same memory that agree on it
      agree on state, position and unread bits. Skip and SkipByReading therefore leave the same object behind. */
  lemma AbsDeterminesState(a: MemStreamReader, b: MemStreamReader)
    requires a.mem == b.mem && a.Valid() && b.Valid() && a.Abs() == b.Abs() && a.Abs().Reading?
    ensures a.state == b.state && a.pMem == b.pMem && a.remainingBytes == b.remainingBytes
    ensures a.nbOfBitsInBitData == b.nbOfBitsInBitData && a.bitData == b.bitData
  {
    hide BytesBits, FromBits, Pow2;
    assert 8 * a.End() == 8 * b.End();
    assert 8 * a.next - a.nbOfBitsInBitData == 8 * b.next - b.nbOfBitsInBitData;
  }

  /** How far a reader can still go, in terms of its fields. */
  lemma SkipFails(r: MemStreamReader, n: nat)
    requires r.Valid() && r.Abs().Reading?
    ensures FetchRun(r.Abs(), n).st == Ok <==> n <= r.nbOfBitsInBitData + 8 * r.remainingBytes
    ensures FetchRun(r.Abs(), n).st != Ok ==> FetchRun(r.Abs(), n) == Fetched(ReadFailed, EmptyError, [])
  {
    hide BytesBits;
  }
}
