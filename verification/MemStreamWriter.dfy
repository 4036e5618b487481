/**
 MemStreamWriter: writes bit- and byte-based data to a block of memory (src/stream/MemStreamWriter.cpp and the typed
 operations of src/stream/StreamWriterBase.cpp). An exception is a Status other than Ok; the caller stops there.
 */
module MemStreamWriters {
  import opened UInt
  import opened StreamSpec

  datatype WriterState = Open | Full | Closed | Error

  /** The bits of the first n bytes of mem. */
  ghost function Prefix(mem: seq<byte>, n: nat): (r: seq<bool>)
    ensures |r| % 8 == 0 && (n <= |mem| ==> |r| == 8 * n)
  {
    if n <= |mem| then BytesBits(mem[..n]) else []
  }

  lemma TailTrans(a: seq<byte>, b: seq<byte>, c: seq<byte>, p: nat, q: nat)
    requires |a| == |b| == |c| && p <= q && (p <= |b| ==> b[p..] == a[p..]) && (q <= |c| ==> c[q..] == b[q..])
    ensures q <= |c| ==> c[q..] == a[q..]
  {
    if q <= |c| {
      assert b[q..] == b[p..][q - p..];
      assert a[q..] == a[p..][q - p..];
    }
  }

  class MemStreamWriter {
    const buffer: array<byte>
    const endian: Endian
    var state: WriterState
    var pMem: nat             // offset of the next byte to be written
    var remainingBytes: nat
    var nbOfBitsWritten: nat  // bits cached in bitData
    var bitData: byte
    ghost var cached: seq<bool>  // the same bits as a sequence

    ghost predicate Valid()
      reads this
    {
      && (state == Open || state == Full ==>
            && pMem + remainingBytes == buffer.Length
            && nbOfBitsWritten == |cached| <= 7
            && bitData == FromBits(cached))
      && (state == Open ==> remainingBytes >= 1)
      && (state == Full ==> remainingBytes == 0 && nbOfBitsWritten == 0)
    }

    ghost function Abs(): Writer
      reads this, buffer
      requires Valid()
    {
      match state
      case Error => WriteFailed
      case Closed => WriteClosed
      case _ => Writing(Stored() + cached, 8 * buffer.Length)
    }

    /** The writer has moved forward from p, and everything it has not reached yet is as it was before. */
    ghost predicate TailIntact(before: seq<byte>, p: nat)
      reads this, buffer
    {
      |before| == buffer.Length && p <= pMem && (pMem <= |before| ==> buffer[..][pMem..] == before[pMem..])
    }

    ghost function Stored(): (r: seq<bool>)
      reads this, buffer
      ensures |r| % 8 == 0
    {
      Prefix(buffer[..], pMem)
    }

    constructor (mem: array<byte>, e: Endian)
      ensures Valid() && buffer == mem && endian == e
      ensures Abs() == Writing([], 8 * mem.Length)
    {
      buffer := mem;
      endian := e;
      state := if mem.Length != 0 then Open else Full;
      pMem, remainingBytes, nbOfBitsWritten, bitData, cached := 0, mem.Length, 0, 0, [];
    }

    lemma StoredBytes(before: seq<byte>, p: nat, d: seq<byte>, after: seq<byte>)
      requires p + |d| <= |before| && after == before[..p] + d + before[p + |d|..]
      ensures Prefix(after, p + |d|) == Prefix(before, p) + BytesBits(d)
      ensures after[p + |d|..] == before[p + |d|..]
    {
      assert after[..p + |d|] == before[..p] + d;
      BytesBitsAppend(before[..p], d);
    }

    /** Cached bits written as one byte are the cached bits padded with zeros. */
    lemma CachedAligned(p: seq<bool>, q: seq<bool>)
      requires |p| % 8 == 0 && 0 < |q| <= 7
      ensures FromBits(q) < 256
      ensures p + ToBits(FromBits(q), 8) == Aligned(p + q)
    {
      hide ToBits, FromBits, BytesBits, Aligned, Low, Shr;
      var z := Const(8 - |q|, false);
      ToFromBits(q);
      LowId(FromBits(q), |q|);
      ToBitsLow(FromBits(q), |q|, 8 - |q|);
      Pow2Mono(|q|, 8);
      assert Pow2(8) == 256;
      PadTo(p, q, z);
    }

    lemma PadTo(p: seq<bool>, q: seq<bool>, z: seq<bool>)
      requires |p| % 8 == 0 && 0 < |q| <= 7 && z == Const(8 - |q|, false)
      ensures p + (q + z) == Aligned(p + q)
    {
      PadOf(|p|, |q|);
      assert Aligned(p + q) == p + q + z;
    }

    lemma PadOf(n: nat, nb: nat)
      requires n % 8 == 0 && 0 < nb <= 7
      ensures Pad(n + nb) == 8 - nb
    {
    }

    /** Stores the bytes d at the write position and advances it; d fits. */
    method Store(d: seq<byte>)
      requires (state == Open || state == Full) && pMem + remainingBytes == buffer.Length && |d| <= remainingBytes
      modifies this`pMem, this`remainingBytes, buffer
      ensures pMem + remainingBytes == buffer.Length && remainingBytes == old(remainingBytes) - |d|
      ensures Stored() == old(Stored()) + BytesBits(d) && TailIntact(old(buffer[..]), old(pMem))
    {
      ghost var mem, p := buffer[..], pMem;
      forall i | 0 <= i < |d| { buffer[pMem + i] := d[i]; }
      assert buffer[..] == mem[..p] + d + mem[p + |d|..];
      StoredBytes(mem, p, d, buffer[..]);
      ghost var mem' := buffer[..];
      pMem := pMem + |d|;
      remainingBytes := remainingBytes - |d|;
      assert buffer[..] == mem';
    }

    method Close()
      requires Valid()
      modifies this, buffer
      ensures Valid() && Abs() == WriteClosed
      ensures var w := old(Abs());
              w.Writing? ==>
                && |Aligned(w.out)| <= w.cap && Stored() == Aligned(w.out) && pMem <= buffer.Length
                && TailIntact(old(buffer[..]), old(pMem))
      ensures !old(Abs()).Writing? ==> buffer[..] == old(buffer[..])
    {
      hide ToBits, FromBits, Pow2, BytesBits, Prefix, Aligned;
      ghost var mem, stored := buffer[..], Stored();
      assert stored + [] == stored;
      if state == Open {
        // a partial byte is waiting
        if nbOfBitsWritten != 0 {
          // the state machine guarantees that one byte of capacity is left
          CachedAligned(stored, cached);
          BytesBitsOne(bitData);
          Store([bitData]);
        } else {
          AlignedId(stored);
        }
      } else {
        AlignedId(stored);
      }
      ghost var mem' := buffer[..];
      state := Closed;
      assert buffer[..] == mem';
    }

    lemma FlushedByte(stored: seq<bool>, cap: nat, q: seq<bool>, d: byte)
      requires |stored| % 8 == 0 && 0 < |q| <= 7 && d == FromBits(q) && |stored| + 8 <= cap
      ensures PushByte(Writing(stored, cap), d) == (Writing(Aligned(stored + q), cap), Ok)
    {
      hide ToBits, FromBits, Pow2, BytesBits;
      CachedAligned(stored, q);
      AlignedId(stored);
    }

    /** Writes the cached bits, padded with zeros to one byte. */
    method Flush() returns (st: Status)
      requires Valid() && nbOfBitsWritten != 0
      modifies this, buffer
      ensures Valid() && nbOfBitsWritten == 0 && TailIntact(old(buffer[..]), old(pMem))
      ensures match old(Abs())
              case Writing(out, cap) => (Abs(), st) == (Writing(Aligned(out), cap), Ok)
              case WriteFailed => (Abs(), st) == (WriteFailed, ErrorStateError)
              case WriteClosed => (Abs(), st) == (WriteClosed, ClosedError)
      decreases nbOfBitsWritten, 0
    {
      hide ToBits, Pow2, BytesBits;
      // clear the bit buffer first, because Push calls itself
      var d := bitData;
      ghost var stored, mem, w, q := Stored(), buffer[..], Abs(), cached;
      nbOfBitsWritten, bitData, cached := 0, 0, [];
      assert buffer[..] == mem;
      if w.Writing? {
        assert stored + [] == stored;
        assert Abs() == Writing(stored, w.cap);
        FlushedByte(stored, w.cap, q, d);
      }
      st := Push(d);
    }

    /** Push(char). */
    method Push(c: byte) returns (st: Status)
      requires Valid()
      modifies this, buffer
      ensures Valid() && (Abs(), st) == PushByte(old(Abs()), c)
      ensures nbOfBitsWritten == 0 && TailIntact(old(buffer[..]), old(pMem))
      decreases nbOfBitsWritten, 1
    {
      hide ToBits, FromBits, Pow2, BytesBits;
      BytesBitsOne(c);
      ghost var w, mem, p := Abs(), buffer[..], pMem;
      if nbOfBitsWritten != 0 {
        st := Flush();
        if st != Ok { return; }
        AlignedId(Aligned(w.out));
      }
      ghost var mem', p' := buffer[..], pMem;
      st := PushAligned([c], w);
      TailTrans(mem, mem', buffer[..], p', pMem);
    }

    /** The switch over the state that ends Push: no bits are cached any more. */
    method PushAligned(d: seq<byte>, ghost w: Writer) returns (st: Status)
      requires Valid() && nbOfBitsWritten == 0 && d != []
      requires match w case Writing(out, cap) => Abs().Writing? && Aligned(Abs().out) == Aligned(out) && Abs().cap == cap
                       case _ => Abs() == w
      modifies this, buffer
      ensures Valid() && nbOfBitsWritten == 0 && (Abs(), st) == Append(w, true, BytesBits(d))
      ensures TailIntact(old(buffer[..]), old(pMem))
    {
      hide ToBits, FromBits, Pow2, BytesBits;
      match state
      case Open =>
        ghost var stored := Stored();
        assert stored + [] == stored;
        AlignedId(stored);
        // does d exceed the remaining capacity?
        if |d| > remainingBytes {
          state := Error;
          return FullError;
        }
        Store(d);
        ghost var mem := buffer[..];
        if remainingBytes == 0 {
          state := Full;
        }
        assert buffer[..] == mem && Stored() + [] == Stored();
        return Ok;
      case Full =>
        ghost var stored := Stored();
        assert stored + [] == stored;
        AlignedId(stored);
        state := Error;
        return FullError;
      case Closed =>
        return ClosedError;
      case Error =>
        return ErrorStateError;
    }

    /** Push(void const *, size_t). */
    method PushBlock(d: seq<byte>) returns (st: Status)
      requires Valid()
      modifies this, buffer
      ensures Valid() && (Abs(), st) == PushBytes(old(Abs()), d)
      ensures TailIntact(old(buffer[..]), old(pMem))
    {
      hide ToBits, FromBits, Pow2, BytesBits;
      if |d| == 0 { return Ok; }
      ghost var w, mem, p := Abs(), buffer[..], pMem;
      if nbOfBitsWritten != 0 {
        st := Flush();
        if st != Ok { return; }
        AlignedId(Aligned(w.out));
      }
      ghost var mem', p' := buffer[..], pMem;
      st := PushAligned(d, w);
      TailTrans(mem, mem', buffer[..], p', pMem);
    }

    /** PushBits: n bits of `bits`, starting with the least significant one. */
    method PushBits(bits: byte, n: nat) returns (st: Status)
      requires Valid()
      modifies this, buffer
      ensures Valid() && (Abs(), st) == StreamSpec.PushBits(old(Abs()), bits, n)
      ensures TailIntact(old(buffer[..]), old(pMem))
    {
      hide ToBits, FromBits, Pow2, BytesBits, And, Or, Shl;
      if n == 0 { return Ok; }
      if n > 8 { return InvalidArgument; }
      match state
      case Open =>
        // only the n low bits count
        var masked := And(bits, Shl(1, n) - 1);
        // combine previously written bits with the bits that shall be written
        var data := Or(bitData, Shl(masked, nbOfBitsWritten));
        ghost var q := cached + ToBits(bits, n);
        Combined(cached, bits, n, data);
        assert Stored() + q == Abs().out + ToBits(bits, n);
        st := PutCombined(data, nbOfBitsWritten + n, q);
      case Full =>
        state := Error;
        return FullError;
      case Closed =>
        return ClosedError;
      case Error =>
        return ErrorStateError;
    }

    /** The rest of PushBits in state open: len bits are waiting in data. */
    method PutCombined(data: nat, len: nat, ghost q: seq<bool>) returns (st: Status)
      requires Valid() && state == Open && |q| == len <= nbOfBitsWritten + 8 && data == FromBits(q)
      modifies this, buffer
      ensures Valid() && TailIntact(old(buffer[..]), old(pMem))
      ensures var t := old(Stored()) + q;
              (Abs(), st) == if |t| <= 8 * buffer.Length then (Writing(t, 8 * buffer.Length), Ok) else (WriteFailed, FullError)
    {
      hide ToBits, FromBits, Pow2, BytesBits, Prefix, Low, Shr;
      ghost var stored, rest := Stored(), q;
      nbOfBitsWritten := len;
      var d := data;
      // a whole byte can go to memory
      if nbOfBitsWritten >= 8 {
        FirstByte(q, data);
        rest := q[8..];
        assert stored + q[..8] + rest == stored + q;
        BytesBitsOne(Low(data, 8));
        Store([Low(data, 8)]);
        nbOfBitsWritten := nbOfBitsWritten - 8;
        d := Shr(data, 8);
        // buffer full?
        if remainingBytes == 0 {
          // bits are left, but no room
          if nbOfBitsWritten != 0 {
            state := Error;
            return FullError;
          }
          state := Full;
        }
      }
      ghost var mem := buffer[..];
      SevenBits(rest);
      bitData, cached := d, rest;
      assert buffer[..] == mem;
      assert Stored() + rest == stored + q;
      return Ok;
    }

    lemma Combined(q: seq<bool>, bits: nat, n: nat, data: nat)
      requires data == Or(FromBits(q), Shl(And(bits, Shl(1, n) - 1), |q|))
      ensures data == FromBits(q + ToBits(bits, n))
    {
      hide ToBits, FromBits;
      AndMask(bits, n);
      OrDisjoint(FromBits(q), Low(bits, n), |q|);
      FromBitsAppend(q, ToBits(bits, n));
      FromToBits(bits, n);
    }

    lemma SevenBits(q: seq<bool>)
      requires |q| <= 7
      ensures FromBits(q) < 128
    {
      Pow2Mono(|q|, 7);
      assert Pow2(7) == 128;
    }

    lemma FirstByte(q: seq<bool>, data: nat)
      requires |q| >= 8 && data == FromBits(q)
      ensures Low(data, 8) == FromBits(q[..8]) < 256 && Shr(data, 8) == FromBits(q[8..])
      ensures ToBits(Low(data, 8), 8) == q[..8]
    {
      hide ToBits, FromBits, BytesBits, Low, Shl, Shr;
      assert q == q[..8] + q[8..];
      FromBitsAppend(q[..8], q[8..]);
      ByteRange(q[..8]);
      ShlSplit(FromBits(q[..8]), FromBits(q[8..]), 8);
      ToFromBits(q[..8]);
    }
  }
}
