/**
 The state machine of MD5Sum (src/hash/md5.cpp) that feeds the message, its padding and its length in blocks of 64 bytes.
 */
module Md5Sums {
  import opened UInt
  import opened StreamSpec
  import opened MemStreamWriters
  import opened StreamWriterBase
  import opened WordBits
  import opened Md5Spec
  import opened Md5
  import CrcSpec

  datatype Pointer = Null | Memory(bytes: seq<byte>, aligned: bool)

  datatype Result = Summed(digest: seq<byte>) | InvalidPointer

  datatype State = FillData | Pad0x80 | PadLength | Done

  const BLOCK: nat := 64

  // ---------------------------------------------------------------- the padded message, byte by byte

  function PaddedLength(n: nat): nat { BLOCK * ((n + 8) / BLOCK + 1) }

  lemma PaddedAt(m: seq<byte>)
    ensures |Padded(m)| == PaddedLength(|m|)
    ensures forall i :: 0 <= i < |Padded(m)| ==>
              Padded(m)[i] == if i < |m| then m[i] else if i == |m| then 0x80
                              else if i < |Padded(m)| - 8 then 0 else LeBytes(8 * |m|, 8)[i - (|Padded(m)| - 8)]
  {
    hide LeBytes, ZeroBytes, PaddedLength;
    LengthIs(|m|);
  }

  lemma LengthIs(n: nat)
    ensures n + 9 + ZeroBytes(n) == PaddedLength(n)
  {
    var q, r := n / 64, n % 64;
    assert n == 64 * q + r;
    if r <= 55 { assert (n + 8) / 64 == q; } else { assert (n + 8) / 64 == q + 1; }
  }

  /** Byte i of the length field, by masking and shifting: s_in_bit = (s & 0x1FFFFFFFFFFFFFFF) * 8. */
  lemma LengthByte(s: nat, i: nat)
    requires i < 8
    ensures ShiftByte(8 * Low(s, 61), i) == LeBytes(8 * s, 8)[i]
  {
    hide LeBytes, ShiftByte, ToBits, Low, BytesBits, BitsBytes;
    LeBytesAt(8 * Low(s, 61), 8, i);
    CrcSpec.LeBytesBits(8 * Low(s, 61), 8);
    CrcSpec.LeBytesBits(8 * s, 8);
    EightFold(s);
    EightFold(Low(s, 61));
    ToBitsLow(s, 61, 0);
    assert ToBits(s, 61) + [] == ToBits(s, 61);
    BytesRoundTrip(LeBytes(8 * Low(s, 61), 8));
    BytesRoundTrip(LeBytes(8 * s, 8));
  }

  lemma EightFold(v: nat)
    ensures ToBits(8 * v, 64) == [false, false, false] + ToBits(v, 61)
  {
    hide ToBits;
    Twice(4 * v, 63);
    Twice(2 * v, 62);
    Twice(v, 61);
  }

  lemma Twice(v: nat, w: nat)
    ensures ToBits(2 * v, w + 1) == [false] + ToBits(v, w)
  {
    var u := 2 * v;
    assert u / 2 == v && u % 2 == 0;
  }

  // ---------------------------------------------------------------- one block

  /** The first k bytes of the block are those of p from position `at` on. */
  ghost predicate Agrees(block: seq<byte>, k: nat, p: seq<byte>, at: nat)
  {
    k <= |block| && at + k <= |p| && forall i :: 0 <= i < k ==> block[i] == p[at + i]
  }

  /** Copies n bytes of input to the block: whole words first, then the remaining 0 to 3 bytes. */
  method PickBytes(block: array<byte>, m: seq<byte>, offset: nat, bytesToPick: nat)
    requires block.Length == BLOCK && bytesToPick <= BLOCK && offset + bytesToPick <= |m|
    modifies block
    ensures Agrees(block[..], bytesToPick, m, offset)
  {
    var wordsToPick, picked := bytesToPick / 4, 0;
    while wordsToPick != 0
      invariant 0 <= wordsToPick && picked + 4 * wordsToPick <= bytesToPick < picked + 4 * wordsToPick + 4
      invariant Agrees(block[..], picked, m, offset)
    {
      forall i | 0 <= i < 4 { block[picked + i] := m[offset + picked + i]; }
      picked := picked + 4;
      wordsToPick := wordsToPick - 1;
    }
    while picked != bytesToPick
      invariant picked <= bytesToPick && Agrees(block[..], picked, m, offset)
    {
      block[picked] := m[offset + picked];
      picked := picked + 1;
    }
  }

  /** Stores c behind the k bytes of the block that are there already. */
  method PutByte(block: array<byte>, k: nat, c: byte, ghost p: seq<byte>, ghost at: nat)
    requires Agrees(block[..], k, p, at) && k < block.Length && at + k < |p| && p[at + k] == c
    modifies block
    ensures Agrees(block[..], k + 1, p, at)
  {
    block[k] := c;
  }

  method PutZeros(block: array<byte>, k0: nat, limit: nat, ghost p: seq<byte>, ghost at: nat) returns (k: nat)
    requires Agrees(block[..], k0, p, at) && limit <= block.Length && at + limit <= |p|
    requires forall i :: at + k0 <= i < at + limit ==> p[i] == 0
    modifies block
    ensures Agrees(block[..], k, p, at) && k == if k0 < limit then limit else k0
  {
    k := k0;
    while k < limit
      invariant Agrees(block[..], k, p, at) && k0 <= k && (k <= limit || k == k0)
    {
      PutByte(block, k, 0, p, at);
      k := k + 1;
    }
  }

  /** The length in bits, low byte first. */
  method PutLength(block: array<byte>, s: nat, ghost p: seq<byte>, ghost at: nat)
    requires block.Length == BLOCK && Agrees(block[..], 56, p, at) && |p| == at + BLOCK
    requires forall i :: 0 <= i < 8 ==> p[at + 56 + i] == LeBytes(8 * s, 8)[i]
    modifies block
    ensures Agrees(block[..], BLOCK, p, at)
  {
    hide LeBytes, ShiftByte, Low;
    var s_in_bit := 8 * Low(s, 61);
    for i := 0 to 8
      invariant Agrees(block[..], 56 + i, p, at)
    {
      LengthByte(s, i);
      PutByte(block, 56 + i, ShiftByte(s_in_bit, i), p, at);
    }
  }

  /** Where the state machine stands after n blocks of a message of s bytes. */
  predicate Stands(state: State, s: nat, n: nat, remainingBytes: nat)
  {
    match state
    case FillData => BLOCK * n <= s && remainingBytes == s - BLOCK * n && (n > 0 ==> remainingBytes > 0)
    case Pad0x80 => BLOCK * n == s && remainingBytes == 0
    case PadLength => s < BLOCK * n && BLOCK * n + BLOCK == PaddedLength(s) && remainingBytes == 0
    case Done => BLOCK * n == PaddedLength(s) && remainingBytes == 0
  }

  /** Fills the block with what comes next. */
  method FillBlock(block: array<byte>, m: seq<byte>, state0: State, remaining0: nat, ghost n: nat)
    returns (state: State, remainingBytes: nat)
    requires block.Length == BLOCK && state0 != Done && Stands(state0, |m|, n, remaining0)
    modifies block
    ensures BLOCK * (n + 1) <= |Padded(m)| && block[..] == Padded(m)[BLOCK * n..BLOCK * (n + 1)]
    ensures Stands(state, |m|, n + 1, remainingBytes)
  {
    hide Padded, LeBytes;
    PaddedAt(m);
    ghost var p, at := Padded(m), BLOCK * n;
    state, remainingBytes := state0, remaining0;
    // input for this block
    var bytesToPick := if remainingBytes >= BLOCK then BLOCK else remainingBytes;
    var bytesInBlock := bytesToPick;
    PickBytes(block, m, |m| - remainingBytes, bytesToPick);
    remainingBytes := remainingBytes - bytesToPick;
    // end of the input reached?
    if state == FillData && remainingBytes == 0 { state := Pad0x80; }
    LastBlock(|m|, n, bytesInBlock);
    assert Agrees(block[..], bytesInBlock, p, at);
    // at least one byte left in the block?
    if state == Pad0x80 && bytesInBlock != BLOCK {
      PutByte(block, bytesInBlock, 0x80, p, at);
      bytesInBlock := bytesInBlock + 1;
      state := PadLength;
    }
    if state == PadLength {
      // pad until at least 8 bytes are left in the block
      bytesInBlock := PutZeros(block, bytesInBlock, BLOCK - 8, p, at);
      if bytesInBlock == BLOCK - 8 {
        PutLength(block, |m|, p, at);
        bytesInBlock := BLOCK;
        state := Done;
      } else {
        // fill the block with zeros and take another cycle
        bytesInBlock := PutZeros(block, bytesInBlock, BLOCK, p, at);
      }
    }
    assert bytesInBlock == BLOCK;
    assert block[..] == p[at..at + BLOCK];
  }

  /** How the end of a message that leaves k bytes for block n fits into it. */
  lemma LastBlock(s: nat, n: nat, k: nat)
    requires k <= BLOCK
    ensures s == BLOCK * n + k && k < BLOCK ==> PaddedLength(s) == BLOCK * n + (if k <= 55 then BLOCK else 2 * BLOCK)
    ensures s >= BLOCK * n + k ==> PaddedLength(s) >= BLOCK * n + k + 9 && PaddedLength(s) >= BLOCK * n + BLOCK
    ensures PaddedLength(s) % BLOCK == 0 && PaddedLength(s) > s + 8
  {
    assert (s + 8) / BLOCK * BLOCK <= s + 8 < (s + 8) / BLOCK * BLOCK + BLOCK;
    if s == BLOCK * n + k && k < BLOCK {
      if k <= 55 { assert (s + 8) / BLOCK == n; } else { assert (s + 8) / BLOCK == n + 1; }
    }
  }

  // ---------------------------------------------------------------- MD5Sum

  /** MD5Sum. */
  method MD5Sum(pData: Pointer, s: nat) returns (r: Result)
    requires s < 0x1_0000_0000_0000_0000 && (pData.Memory? ==> s <= |pData.bytes|)
    ensures r.InvalidPointer? <==> (pData.Null? && s != 0) || (pData.Memory? && !pData.aligned)
    ensures r.Summed? ==> r.digest == Digest(if pData.Null? then [] else pData.bytes[..s])
  {
    hide Padded, Compress, Stands, Output;
    if pData.Null? && s != 0 { return InvalidPointer; }
    if pData.Memory? && !pData.aligned { return InvalidPointer; }
    var m := if pData.Null? then [] else pData.bytes[..s];
    // working registers, initialized according to RFC 1321
    var A: word, B: word, C: word, D: word := 0x6745_2301, 0xEFCD_AB89, 0x98BA_DCFE, 0x1032_5476;
    var block := new byte[BLOCK];
    var state, remainingBytes: nat := FillData, |m|;
    ghost var n: nat := 0;
    Starts(|m|);
    while state != Done
      invariant Stands(state, |m|, n, remainingBytes)
      invariant BLOCK * n <= |Padded(m)| && [A, B, C, D] == Blocks(Padded(m), n)
      decreases PaddedLength(|m|) - BLOCK * n
    {
      NotDoneYet(state, |m|, n, remainingBytes);
      state, remainingBytes := FillBlock(block, m, state, remainingBytes, n);
      A, B, C, D := ProcessBlock(A, B, C, D, block);
      n := n + 1;
    }
    Ends(m, n, remainingBytes);
    var digest := WriteResult(A, B, C, D);
    r := Summed(digest);
  }

  lemma Starts(s: nat)
    ensures Stands(FillData, s, 0, s)
  {
  }

  lemma NotDoneYet(state: State, s: nat, n: nat, remainingBytes: nat)
    requires Stands(state, s, n, remainingBytes) && state != Done
    ensures BLOCK * n < PaddedLength(s)
  {
  }

  lemma Ends(m: seq<byte>, n: nat, remainingBytes: nat)
    requires Stands(Done, |m|, n, remainingBytes)
    ensures n == |Padded(m)| / 64
  {
    hide Padded;
    PaddedAt(m);
  }

  /** The four registers, low byte first. */
  method WriteResult(A: word, B: word, C: word, D: word) returns (result: seq<byte>)
    ensures result == Output([A, B, C, D])
  {
    hide MemStreamWriter.Valid, MemStreamWriter.Abs, BytesBits, BitsBytes, LeBytes, Aligned, Prefix, Digits, LastBytes;
    var a := new byte[16];
    var msw := new MemStreamWriter(a, Little);
    ghost var w0 := msw.Abs();
    var st;
    ghost var b, c, d := LeBytes(A, 4) + LeBytes(B, 4), LeBytes(A, 4) + LeBytes(B, 4) + LeBytes(C, 4), Output([A, B, C, D]);
    PushBytesTwice(w0, LeBytes(A, 4), LeBytes(B, 4));
    PushBytesTwice(w0, b, LeBytes(C, 4));
    PushBytesTwice(w0, c, LeBytes(D, 4));
    FitsAll(w0, LeBytes(A, 4));
    FitsAll(w0, b);
    FitsAll(w0, c);
    FitsAll(w0, d);
    st := WriteUint(msw, A, 4);
    st := WriteUint(msw, B, 4);
    st := WriteUint(msw, C, 4);
    st := WriteUint(msw, D, 4);
    msw.Close();
    AlignedId(BytesBits(d));
    result := a[..];
    Whole(a[..], d, msw.pMem);
  }

  lemma FitsAll(w: Writer, d: seq<byte>)
    requires w == Writing([], 128) && 0 < |d| <= 16
    ensures PushBytes(w, d) == (Writing(BytesBits(d), 128), Ok)
  {
    hide BytesBits, Const;
    assert [] + Const(0, false) == [];
    assert [] + BytesBits(d) == BytesBits(d);
  }

  lemma Whole(mem: seq<byte>, d: seq<byte>, p: nat)
    requires |mem| == |d| == 16 && p <= 16 && Prefix(mem, p) == BytesBits(d)
    ensures mem == d
  {
    hide BytesBits, BitsBytes;
    BytesRoundTrip(mem[..p]);
    BytesRoundTrip(d);
    assert p == 16 && mem[..16] == mem;
  }
}
