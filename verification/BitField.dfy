/**
 BitField (src/container/BitField.cpp): a sequence of booleans in an array of 32-bit words. Bits of the last word beyond
 the size are undefined.
 */
module BitFields {
  import opened UInt
  import opened WordBits

  const NO_BIT: nat := 0xFFFF_FFFF_FFFF_FFFF

  datatype Outcome = Done | OutOfRange | LengthError | InvalidArgument

  /** Bit k of an array of words. */
  function At(ws: seq<word>, k: nat): bool
  {
    k / W < |ws| && Bit(ws[k / W], k % W)
  }

  ghost function ContentsOf(ws: seq<word>, n: nat): (r: seq<bool>)
    ensures |r| == n && forall k :: 0 <= k < n ==> r[k] == At(ws, k)
  {
    seq(n, k requires 0 <= k < n => At(ws, k))
  }

  function NbOfElements(n: nat): nat { (n + 31) / W }

  // ---------------------------------------------------------------- reference definitions

  /** b cut off or filled up with zeros to n bits. */
  function ResizedTo(b: seq<bool>, n: nat): (r: seq<bool>)
    ensures |r| == n
  {
    seq(n, k requires 0 <= k < n => k < |b| && b[k])
  }

  /** The first n bits of a block of bytes. */
  function FirstBits(d: seq<byte>, n: nat): (r: seq<bool>)
    ensures |r| == n
  {
    seq(n, k requires 0 <= k < n => ByteBit(d, k))
  }

  /** Linear scan upwards for the first bit with value v. */
  function ScanUp(b: seq<bool>, start: nat, v: bool): nat
    decreases |b| - start
  {
    if start >= |b| then NO_BIT else if b[start] == v then start else ScanUp(b, start + 1, v)
  }

  /** Linear scan downwards from index n - 1. */
  function ScanDown(b: seq<bool>, n: nat, v: bool): nat
    requires n <= |b|
  {
    if n == 0 then NO_BIT else if b[n - 1] == v then n - 1 else ScanDown(b, n - 1, v)
  }

  lemma {:induction false} ScanUpFinds(b: seq<bool>, start: nat, v: bool, r: nat)
    requires start <= r <= |b| && (forall k :: start <= k < r ==> b[k] != v) && (r < |b| ==> b[r] == v)
    ensures ScanUp(b, start, v) == if r < |b| then r else NO_BIT
    decreases |b| - start
  {
    if start < r { ScanUpFinds(b, start + 1, v, r); }
  }

  lemma {:induction false} ScanUpMeans(b: seq<bool>, start: nat, v: bool)
    requires |b| <= NO_BIT
    ensures var r := ScanUp(b, start, v);
            if r < |b| then start <= r && b[r] == v && forall k :: start <= k < r ==> b[k] != v
            else r == NO_BIT && forall k :: start <= k < |b| ==> b[k] != v
    decreases |b| - start
  {
    if start < |b| { ScanUpMeans(b, start + 1, v); }
  }

  lemma {:induction false} ScanDownFinds(b: seq<bool>, n: nat, v: bool, r: nat)
    requires r <= n <= |b| && (forall k :: r <= k < n ==> b[k] != v) && (r > 0 ==> b[r - 1] == v)
    ensures ScanDown(b, n, v) == if r > 0 then r - 1 else NO_BIT
    decreases n
  {
    if r < n { ScanDownFinds(b, n - 1, v, r); }
  }

  lemma {:induction false} ScanDownMeans(b: seq<bool>, n: nat, v: bool)
    requires n <= |b| <= NO_BIT
    ensures var r := ScanDown(b, n, v);
            if r < n then b[r] == v && forall k :: r < k < n ==> b[k] != v
            else r == NO_BIT && forall k :: 0 <= k < n ==> b[k] != v
    decreases n
  {
    if n > 0 { ScanDownMeans(b, n - 1, v); }
  }

  datatype Run = Run(first: nat, last: nat)

  /** rs lists the maximal runs of bits with value v among the first n bits of b, in increasing order. */
  ghost predicate MaximalRuns(rs: seq<Run>, b: seq<bool>, n: nat, v: bool)
    requires n <= |b|
  {
    && (forall i :: 0 <= i < |rs| ==> rs[i].first <= rs[i].last < n)
    && (forall i :: 0 <= i < |rs| - 1 ==> rs[i].last + 1 < rs[i + 1].first)
    && (forall i, k :: 0 <= i < |rs| && rs[i].first <= k <= rs[i].last ==> b[k] == v)
    && (forall k :: 0 <= k < n && b[k] == v ==> exists i :: 0 <= i < |rs| && rs[i].first <= k <= rs[i].last)
  }

  lemma NoRuns(b: seq<bool>, v: bool)
    ensures MaximalRuns([], b, 0, v)
  {
  }

  lemma NoMoreRuns(rs: seq<Run>, b: seq<bool>, n: nat, v: bool)
    requires n <= |b| && MaximalRuns(rs, b, n, v) && forall k :: n <= k < |b| ==> b[k] != v
    ensures MaximalRuns(rs, b, |b|, v)
  {
  }

  lemma OneMoreRun(rs: seq<Run>, b: seq<bool>, n: nat, v: bool, first: nat, last: nat)
    requires n <= first <= last < |b| && MaximalRuns(rs, b, n, v)
    requires rs != [] ==> rs[|rs| - 1].last + 1 == n && b[n] != v
    requires (forall k :: n <= k < first ==> b[k] != v) && (forall k :: first <= k <= last ==> b[k] == v)
    ensures MaximalRuns(rs + [Run(first, last)], b, last + 1, v)
  {
    var rs' := rs + [Run(first, last)];
    assert rs'[|rs|] == Run(first, last);
    forall k | 0 <= k < last + 1 && b[k] == v ensures exists i :: 0 <= i < |rs'| && rs'[i].first <= k <= rs'[i].last {
      if k < n {
        var i :| 0 <= i < |rs| && rs[i].first <= k <= rs[i].last;
        assert rs'[i] == rs[i];
      }
    }
  }

  /** The bits below index + tz of the word that has been searched. */
  lemma Passed(ws: seq<word>, storageIdx: nat, index: nat, tz: nat, k: int)
    requires storageIdx < |ws| && index == W * storageIdx && tz <= W && 0 <= k < index + tz
    ensures k >= index ==> At(ws, k) == Bit(ws[storageIdx], k - index)
  {
    if k >= index { AtWord(ws, storageIdx, k - index); }
  }

  // ---------------------------------------------------------------- single words of an array

  lemma AtWord(ws: seq<word>, i: nat, k: nat)
    requires i < |ws| && k < W
    ensures At(ws, W * i + k) == Bit(ws[i], k)
  {
    assert (W * i + k) / W == i && (W * i + k) % W == k;
  }

  lemma SetOne(ws: seq<word>, index: nat, ws': seq<word>, k: nat)
    requires index / W < |ws| && ws' == ws[index / W := WOr(ws[index / W], WShl(1, index % W))]
    ensures At(ws', k) == (k == index || At(ws, k))
  {
    hide WOr, WShl, Bit;
    if k / W == index / W {
      WOrBit(ws[index / W], WShl(1, index % W), k % W);
      SingleBit(index % W, k % W);
    }
  }

  lemma ClearOne(ws: seq<word>, index: nat, ws': seq<word>, k: nat)
    requires index / W < |ws| && ws' == ws[index / W := WAnd(ws[index / W], WNot(WShl(1, index % W)))]
    ensures At(ws', k) == (k != index && At(ws, k))
  {
    hide WAnd, WNot, WShl, Bit;
    if k / W == index / W {
      WAndBit(ws[index / W], WNot(WShl(1, index % W)), k % W);
      WNotBit(WShl(1, index % W), k % W);
      SingleBit(index % W, k % W);
    }
  }

  class BitField {
    var nBits: nat
    var storage: array<word>

    ghost predicate Valid()
      reads this
    {
      storage.Length == NbOfElements(nBits) && nBits <= NO_BIT - 31
    }

    ghost function Contents(): (r: seq<bool>)
      reads this, storage
      ensures |r| == nBits
    {
      ContentsOf(storage[..], nBits)
    }

    constructor ()
      ensures Valid() && Contents() == [] && fresh(storage)
    {
      nBits := 0;
      storage := new word[0];
    }

    // -------------------------------------------------------------- single bits

    method SetBit(index: nat) returns (r: Outcome)
      requires Valid()
      modifies storage
      ensures r == if index >= nBits then OutOfRange else Done
      ensures Contents() == if index >= nBits then old(Contents()) else old(Contents())[index := true]
    {
      hide WOr, WShl, At;
      if index >= nBits { return OutOfRange; }
      ghost var ws: seq<word> := storage[..];
      storage[index / W] := WOr(storage[index / W], WShl(1, index % W));
      assert storage[..] == ws[index / W := WOr(ws[index / W], WShl(1, index % W))];
      forall k | 0 <= k < nBits ensures Contents()[k] == ContentsOf(ws, nBits)[index := true][k] {
        SetOne(ws, index, storage[..], k);
      }
      return Done;
    }

    method ClearBit(index: nat) returns (r: Outcome)
      requires Valid()
      modifies storage
      ensures r == if index >= nBits then OutOfRange else Done
      ensures Contents() == if index >= nBits then old(Contents()) else old(Contents())[index := false]
    {
      hide WAnd, WNot, WShl, At;
      if index >= nBits { return OutOfRange; }
      ghost var ws: seq<word> := storage[..];
      storage[index / W] := WAnd(storage[index / W], WNot(WShl(1, index % W)));
      assert storage[..] == ws[index / W := WAnd(ws[index / W], WNot(WShl(1, index % W)))];
      forall k | 0 <= k < nBits ensures Contents()[k] == ContentsOf(ws, nBits)[index := false][k] {
        ClearOne(ws, index, storage[..], k);
      }
      return Done;
    }

    method WriteBit(index: nat, value: bool) returns (r: Outcome)
      requires Valid()
      modifies storage
      ensures r == if index >= nBits then OutOfRange else Done
      ensures Contents() == if index >= nBits then old(Contents()) else old(Contents())[index := value]
    {
      if value {
        r := SetBit(index);
      } else {
        r := ClearBit(index);
      }
    }

    method GetBit(index: nat) returns (r: Outcome, value: bool)
      requires Valid()
      ensures r == if index >= nBits then OutOfRange else Done
      ensures r == Done ==> value == Contents()[index]
    {
      hide WAnd, WShl, Bit;
      if index >= nBits { return OutOfRange, false; }
      TestBit(storage[index / W], index % W);
      return Done, WAnd(storage[index / W], WShl(1, index % W)) != 0;
    }

    // -------------------------------------------------------------- all bits

    method ClearAll()
      requires Valid()
      modifies storage
      ensures Contents() == seq(nBits, _ => false)
    {
      hide Bit;
      forall i | 0 <= i < storage.Length { storage[i] := 0; }
      forall k | 0 <= k < nBits ensures !At(storage[..], k) { ZeroBit(k % W); }
    }

    method SetAll()
      requires Valid()
      modifies storage
      ensures Contents() == seq(nBits, _ => true)
    {
      hide Bit, Pow2;
      forall i | 0 <= i < storage.Length { storage[i] := MAX; }
      WordRange();
      forall k | 0 <= k < nBits ensures At(storage[..], k) { OnesBit(W, k % W); }
    }

    /** Keeps the bits up to the smaller of the two sizes; new bits are zero. */
    method Resize(newSize: nat) returns (r: Outcome)
      requires Valid()
      modifies this, storage
      ensures Valid() && (storage == old(storage) || fresh(storage))
      ensures r == if newSize > NO_BIT - 31 && newSize != old(nBits) then LengthError else Done
      ensures Contents() == if r == LengthError then old(Contents()) else ResizedTo(old(Contents()), newSize)
    {
      hide WAnd, WNot, WShl, At, Bit;
      ghost var ws: seq<word>, n := storage[..], nBits;
      if newSize == nBits { return Done; }
      if newSize == 0 {
        nBits := 0;
        storage := new word[0];
        return Done;
      }
      if newSize > NO_BIT - 31 { return LengthError; }
      var currElements, newElements := NbOfElements(nBits), NbOfElements(newSize);
      // another number of words?
      if currElements != newElements {
        storage := Reallocated(newElements);
      }
      ghost var ws1: seq<word> := storage[..];
      // in case of enlargement, the top bits of the old last element must be cleared
      if newSize > nBits { ClearUnused(); }
      ghost var ws2: seq<word> := storage[..];
      nBits := newSize;
      assert storage[..] == ws2;
      ResizedAll(ws, n, ws1, ws2, newSize);
      return Done;
    }

    /** Clears the bits of the last element of the contents that do not belong to the contents. */
    method ClearUnused()
      requires (nBits + 31) / W <= storage.Length
      modifies storage
      ensures storage[..] == ClearedAbove(old(storage[..]), nBits)
    {
      hide WAnd, WNot, WShl;
      ghost var ws: seq<word> := storage[..];
      var usedBitsInLastElement := nBits % W;
      if usedBitsInLastElement != 0 {
        var mask := WNot(WShl(MAX, usedBitsInLastElement));
        storage[(nBits + 31) / W - 1] := WAnd(storage[(nBits + 31) / W - 1], mask);
        assert storage[..] == ws[(nBits + 31) / W - 1 := WAnd(ws[(nBits + 31) / W - 1], mask)];
      }
    }

    /** New storage with as much of the old one as fits, and zeros behind. */
    method Reallocated(newElements: nat) returns (a: array<word>)
      ensures fresh(a) && a[..] == Extended(storage[..], newElements)
    {
      a := new word[newElements];
      var currElements := storage.Length;
      if newElements > currElements {
        forall i | 0 <= i < currElements { a[i] := storage[i]; }
        forall i | currElements <= i < newElements { a[i] := 0; }
      } else {
        forall i | 0 <= i < newElements { a[i] := storage[i]; }
      }
    }

    // -------------------------------------------------------------- searches

    /** The loop of the searches upwards: value holds the bits of the word of startIndex that come into question. */
    method Upwards(value0: word, startIndex: nat, wanted: bool) returns (r: nat)
      requires Valid() && startIndex < nBits
      requires forall i: nat :: i < W ==>
                 (Bit(value0, i) == wanted <==> i >= startIndex % W && Bit(storage[startIndex / W], i) == wanted)
      ensures r == ScanUp(Contents(), startIndex, wanted)
    {
      hide Bit, FirstFrom, At;
      var storageIdx, value := startIndex / W, value0;
      var index := storageIdx * W;
      while true
        invariant index == W * storageIdx < nBits && storageIdx >= startIndex / W
        invariant forall i: nat :: i < W ==>
                    (Bit(value, i) == wanted <==> W * storageIdx + i >= startIndex && Bit(storage[storageIdx], i) == wanted)
        invariant forall k :: startIndex <= k < index ==> At(storage[..], k) != wanted
        decreases storage.Length - storageIdx
      {
        var tz := if wanted then CountTrailingZeros(value) else CountTrailingOnes(value);
        ghost var ws: seq<word> := storage[..];
        forall k | startIndex <= k < index + tz ensures At(ws, k) != wanted { Passed(ws, storageIdx, index, tz, k); }
        if tz == W {
          index := index + W;
          if index >= nBits {
            ScanUpFinds(Contents(), startIndex, wanted, nBits);
            return NO_BIT;
          }
          storageIdx := storageIdx + 1;
          value := storage[storageIdx];
        } else {
          AtWord(ws, storageIdx, tz);
          index := index + tz;
          if index < nBits {
            ScanUpFinds(Contents(), startIndex, wanted, index);
            return index;
          }
          ScanUpFinds(Contents(), startIndex, wanted, nBits);
          return NO_BIT;
        }
      }
    }

    method FindFirstSetBit(startIndex: nat) returns (r: nat)
      requires Valid()
      ensures r == ScanUp(Contents(), startIndex, true)
    {
      hide Bit, WAnd, WShl, At;
      // beyond end?
      if startIndex >= nBits { return NO_BIT; }
      var firstBit := startIndex % W;
      var value := WAnd(storage[startIndex / W], WShl(MAX, firstBit));
      forall i: nat | i < W ensures Bit(value, i) == (i >= firstBit && Bit(storage[startIndex / W], i)) {
        WAndBit(storage[startIndex / W], WShl(MAX, firstBit), i);
        UpperBit(firstBit, i);
      }
      r := Upwards(value, startIndex, true);
    }

    method FindFirstClearedBit(startIndex: nat) returns (r: nat)
      requires Valid()
      ensures r == ScanUp(Contents(), startIndex, false)
    {
      hide Bit, WOr, WNot, WShl, At;
      // beyond end?
      if startIndex >= nBits { return NO_BIT; }
      var firstBit := startIndex % W;
      var value := WOr(storage[startIndex / W], WNot(WShl(MAX, firstBit)));
      forall i: nat | i < W ensures Bit(value, i) == (i < firstBit || Bit(storage[startIndex / W], i)) {
        WOrBit(storage[startIndex / W], WNot(WShl(MAX, firstBit)), i);
        WNotBit(WShl(MAX, firstBit), i);
        UpperBit(firstBit, i);
      }
      r := Upwards(value, startIndex, false);
    }

    /** The loop of the searches downwards. */
    method Downwards(value0: word, startIndex: nat, wanted: bool) returns (r: nat)
      requires Valid() && startIndex < nBits
      requires forall i: nat :: i < W ==>
                 (Bit(value0, i) == wanted <==> i <= startIndex % W && Bit(storage[startIndex / W], i) == wanted)
      ensures r == ScanDown(Contents(), startIndex + 1, wanted)
    {
      hide Bit, LastBelow, At;
      var storageIdx: nat, value := startIndex / W, value0;
      var index := storageIdx * W;
      ghost var ws: seq<word> := storage[..];
      while true
        invariant index == W * storageIdx <= startIndex && storageIdx < storage.Length
        invariant forall i: nat :: i < W ==>
                    (Bit(value, i) == wanted <==> W * storageIdx + i <= startIndex && Bit(storage[storageIdx], i) == wanted)
        invariant forall k :: index + W <= k <= startIndex ==> At(ws, k) != wanted
        decreases storageIdx
      {
        var lz := if wanted then CountLeadingZeros(value) else CountLeadingOnes(value);
        forall k | index + W - lz <= k <= startIndex ensures At(ws, k) != wanted {
          if k < index + W { AtWord(ws, storageIdx, k - index); }
        }
        if lz == W {
          if storageIdx == 0 {
            ScanDownFinds(Contents(), startIndex + 1, wanted, 0);
            return NO_BIT;
          }
          index := index - W;
          storageIdx := storageIdx - 1;
          value := storage[storageIdx];
        } else {
          AtWord(ws, storageIdx, W - lz - 1);
          index := index + (W - lz - 1);
          ScanDownFinds(Contents(), startIndex + 1, wanted, index + 1);
          return index;
        }
      }
    }

    method FindFirstSetBitReverse(startIndex: nat) returns (r: nat)
      requires Valid()
      ensures r == ScanDown(Contents(), if startIndex >= nBits then nBits else startIndex + 1, true)
    {
      hide Bit, WAnd, WNot, WShl, At;
      if nBits == 0 { return NO_BIT; }
      var start := if startIndex >= nBits then nBits - 1 else startIndex;
      var firstBit := start % W;
      var value := storage[start / W];
      if firstBit != W - 1 { value := WAnd(value, WNot(WShl(MAX, firstBit + 1))); }
      forall i: nat | i < W ensures Bit(value, i) == (i <= firstBit && Bit(storage[start / W], i)) {
        WAndBit(storage[start / W], WNot(WShl(MAX, firstBit + 1)), i);
        WNotBit(WShl(MAX, firstBit + 1), i);
        UpperBit(firstBit + 1, i);
      }
      r := Downwards(value, start, true);
    }

    method FindFirstClearedBitReverse(startIndex: nat) returns (r: nat)
      requires Valid()
      ensures r == ScanDown(Contents(), if startIndex >= nBits then nBits else startIndex + 1, false)
    {
      hide Bit, WOr, WShl, At;
      if nBits == 0 { return NO_BIT; }
      var start := if startIndex >= nBits then nBits - 1 else startIndex;
      var firstBit := start % W;
      var value := storage[start / W];
      if firstBit != W - 1 { value := WOr(value, WShl(MAX, firstBit + 1)); }
      forall i: nat | i < W ensures Bit(value, i) == (i > firstBit || Bit(storage[start / W], i)) {
        WOrBit(storage[start / W], WShl(MAX, firstBit + 1), i);
        UpperBit(firstBit + 1, i);
      }
      r := Downwards(value, start, false);
    }

    /** EnumerateBitsCompressed, as a list of runs. */
    method EnumerateBitsCompressed(setNotCleared: bool) returns (runs: seq<Run>)
      requires Valid()
      ensures MaximalRuns(runs, Contents(), nBits, setNotCleared)
    {
      hide ScanUp, ContentsOf, MaximalRuns;
      NoRuns(Contents(), setNotCleared);
      runs := [];
      var firstBit := 0;
      ghost var b, v := Contents(), setNotCleared;
      while true
        invariant firstBit <= nBits && MaximalRuns(runs, b, firstBit, v)
        invariant runs != [] ==> runs[|runs| - 1].last + 1 == firstBit && (firstBit < nBits ==> b[firstBit] != v)
        decreases nBits - firstBit
      {
        ghost var done := firstBit;
        var lastBit;
        firstBit, lastBit := NextRun(firstBit, setNotCleared);
        assert Contents() == b;
        if firstBit == NO_BIT {
          NoMoreRuns(runs, b, done, v);
          break;
        }
        OneMoreRun(runs, b, done, v, firstBit, lastBit);
        runs := runs + [Run(firstBit, lastBit)];
        firstBit := lastBit + 1;
      }
    }

    /** The next maximal run from a bit on; first is NO_BIT if there is none. */
    method NextRun(start: nat, setNotCleared: bool) returns (first: nat, last: nat)
      requires Valid() && start <= nBits
      ensures first == NO_BIT ==> forall k :: start <= k < nBits ==> Contents()[k] != setNotCleared
      ensures first != NO_BIT ==>
                && start <= first <= last < nBits && (last + 1 < nBits ==> Contents()[last + 1] != setNotCleared)
                && (forall k :: start <= k < first ==> Contents()[k] != setNotCleared)
                && (forall k :: first <= k <= last ==> Contents()[k] == setNotCleared)
    {
      hide ScanUp, ContentsOf;
      ghost var b := Contents();
      last := 0;
      ScanUpMeans(b, start, setNotCleared);
      // start of the next run
      if setNotCleared {
        first := FindFirstSetBit(start);
      } else {
        first := FindFirstClearedBit(start);
      }
      if first == NO_BIT { return; }
      ScanUpMeans(b, first + 1, !setNotCleared);
      // look for the first not interesting bit behind
      if setNotCleared {
        last := FindFirstClearedBit(first + 1);
      } else {
        last := FindFirstSetBit(first + 1);
      }
      last := if last != NO_BIT then last - 1 else nBits - 1;
    }

    // -------------------------------------------------------------- blocks of bytes

    /** Assign: the bits of pNewData, the least significant bit of each byte first. The null pointer is None. */
    method Assign(newSize: nat, pNewData: Data) returns (r: Outcome)
      requires Valid() && (pNewData.Bytes? ==> (newSize + 7) / 8 <= |pNewData.bytes|)
      modifies this, storage
      ensures Valid() && (storage == old(storage) || fresh(storage))
      ensures r == (if pNewData.Null? then InvalidArgument
                    else if newSize > NO_BIT - 31 && newSize != old(nBits) then LengthError else Done)
      ensures r == Done ==> Contents() == FirstBits(pNewData.bytes, newSize)
      ensures r != Done ==> Contents() == old(Contents())
    {
      hide At, Bit;
      if pNewData.Null? { return InvalidArgument; }
      if newSize == 0 {
        nBits := 0;
        storage := new word[0];
        return Done;
      }
      // size changed?
      if newSize != nBits {
        if newSize > NO_BIT - 31 { return LengthError; }
        if NbOfElements(nBits) != NbOfElements(newSize) {
          storage := new word[NbOfElements(newSize)];
        }
        nBits := newSize;
      }
      // the last word first, then the bytes of the data
      storage[NbOfElements(nBits) - 1] := 0;
      CopyBytes(storage, pNewData.bytes[..(nBits + 7) / 8]);
      return Done;
    }

    /** operator==. */
    method Equals(rhv: BitField) returns (equal: bool)
      requires Valid() && rhv.Valid()
      ensures equal == (Contents() == rhv.Contents())
    {
      hide At, ByteOf;
      if this == rhv { return true; }
      if nBits != rhv.nBits {
        assert |Contents()| != |rhv.Contents()|;
        return false;
      }
      // no bits?
      if nBits == 0 { return true; }
      var nbOfFullUsedBytes, bitsInLastByte := nBits / 8, nBits % 8;
      var same := SameBytes(storage, rhv.storage, nbOfFullUsedBytes);
      SameBytesSameBits(storage[..], rhv.storage[..], nbOfFullUsedBytes);
      if bitsInLastByte == 0 { return same; }
      if nbOfFullUsedBytes != 0 && !same { return false; }
      var j := nbOfFullUsedBytes;
      var lastByteThis, lastByteRhv := StorageByte(storage[..], j), StorageByte(rhv.storage[..], j);
      var mask := LowMask(bitsInLastByte);
      MaskedBytes(storage[..], rhv.storage[..], j, bitsInLastByte);
      return And(lastByteThis, mask) == And(lastByteRhv, mask);
    }
  }

  datatype Data = Null | Bytes(bytes: seq<byte>)

  function Extended(ws: seq<word>, n: nat): (r: seq<word>)
    ensures |r| == n
  {
    if n <= |ws| then ws[..n] else ws + seq(n - |ws|, _ => 0)
  }

  /** Words with the bits from n on cleared in the word that holds bit n - 1. */
  function ClearedAbove(ws: seq<word>, n: nat): seq<word>
    requires (n + 31) / W <= |ws|
  {
    var last := (n + 31) / W - 1;
    if n % W != 0 then ws[last := WAnd(ws[last], WNot(WShl(MAX, n % W)))] else ws
  }

  lemma ResizedAll(ws: seq<word>, n: nat, ws1: seq<word>, ws2: seq<word>, newSize: nat)
    requires |ws| == NbOfElements(n) && ws1 == Extended(ws, NbOfElements(newSize))
    requires ws2 == if newSize > n then ClearedAbove(ws1, n) else ws1
    ensures ContentsOf(ws2, newSize) == ResizedTo(ContentsOf(ws, n), newSize)
  {
    hide At, ClearedAbove, Extended;
    forall k | 0 <= k < newSize ensures At(ws2, k) == (k < n && At(ws, k)) { Resized(ws, n, ws1, ws2, newSize, k); }
  }

  /** ws has been reallocated to ws1, and the unused bits of its last element have been cleared in ws2. */
  lemma Resized(ws: seq<word>, n: nat, ws1: seq<word>, ws2: seq<word>, newSize: nat, k: nat)
    requires |ws| == NbOfElements(n) && ws1 == Extended(ws, NbOfElements(newSize)) && k < newSize
    requires ws2 == if newSize > n then ClearedAbove(ws1, n) else ws1
    ensures At(ws2, k) == (k < n && At(ws, k))
  {
    hide WAnd, WNot, WShl, Bit;
    if newSize > n && n % W != 0 && k / W == |ws| - 1 {
      WAndBit(ws1[|ws| - 1], WNot(WShl(MAX, n % W)), k % W);
      WNotBit(WShl(MAX, n % W), k % W);
      UpperBit(n % W, k % W);
    } else if k / W >= |ws| {
      ZeroBit(k % W);
    }
  }

  /** Bit k of a block of bytes. */
  function ByteBit(d: seq<byte>, k: nat): bool
  {
    k / 8 < |d| && Bit(d[k / 8], k % 8)
  }

  /** Byte j of an array of words in memory. */
  function StorageByte(ws: seq<word>, j: nat): byte
    requires j / 4 < |ws|
  {
    ByteOf(ws[j / 4], j % 4)
  }

  lemma StorageByteBit(ws: seq<word>, j: nat, i: nat)
    requires j / 4 < |ws| && i < 8
    ensures Bit(StorageByte(ws, j), i) == At(ws, 8 * j + i)
  {
    hide ByteOf, Bit;
    ByteOfBit(ws[j / 4], j % 4, i);
    assert (8 * j + i) / W == j / 4 && (8 * j + i) % W == 8 * (j % 4) + i;
  }

  /** memcpy of bytes into an array of words. */
  method CopyBytes(a: array<word>, d: seq<byte>)
    requires |d| <= 4 * a.Length
    modifies a
    ensures forall k: nat :: k < 8 * |d| ==> At(a[..], k) == ByteBit(d, k)
  {
    hide WithByte, At, ByteBit;
    for j := 0 to |d|
      invariant forall k: nat :: k < 8 * j ==> At(a[..], k) == ByteBit(d, k)
    {
      ghost var ws: seq<word> := a[..];
      a[j / 4] := WithByte(a[j / 4], j % 4, d[j]);
      assert a[..] == ws[j / 4 := WithByte(ws[j / 4], j % 4, d[j])];
      forall k: nat | k < 8 * j + 8 ensures At(a[..], k) == ByteBit(d, k) {
        ByteStored(ws, j, d, a[..], k);
      }
    }
  }

  lemma ByteStored(ws: seq<word>, j: nat, d: seq<byte>, ws': seq<word>, k: nat)
    requires j < |d| && j / 4 < |ws| && ws' == ws[j / 4 := WithByte(ws[j / 4], j % 4, d[j])] && k < 8 * j + 8
    ensures At(ws', k) == if k >= 8 * j then ByteBit(d, k) else At(ws, k)
  {
    hide WithByte, Bit;
    if k / W == j / 4 { WithByteBit(ws[j / 4], j % 4, d[j], k % W); }
  }

  /** memcmp(a, b, n) == 0. */
  method SameBytes(a: array<word>, b: array<word>, n: nat) returns (same: bool)
    requires n <= 4 * a.Length && n <= 4 * b.Length
    ensures same <==> forall j: nat :: j < n ==> j / 4 < a.Length && j / 4 < b.Length && StorageByte(a[..], j) == StorageByte(b[..], j)
  {
    hide StorageByte;
    for j := 0 to n
      invariant forall i: nat :: i < j ==> i / 4 < a.Length && i / 4 < b.Length && StorageByte(a[..], i) == StorageByte(b[..], i)
    {
      if StorageByte(a[..], j) != StorageByte(b[..], j) { return false; }
    }
    return true;
  }

  lemma SameBytesSameBits(a: seq<word>, b: seq<word>, n: nat)
    requires n <= 4 * |a| && n <= 4 * |b|
    ensures (forall j: nat :: j < n ==> j / 4 < |a| && j / 4 < |b| && StorageByte(a, j) == StorageByte(b, j))
            <==> (forall k: nat :: k < 8 * n ==> At(a, k) == At(b, k))
  {
    hide StorageByte, At, Bit;
    if forall j: nat :: j < n ==> j / 4 < |a| && j / 4 < |b| && StorageByte(a, j) == StorageByte(b, j) {
      forall k: nat | k < 8 * n ensures At(a, k) == At(b, k) {
        StorageByteBit(a, k / 8, k % 8);
        StorageByteBit(b, k / 8, k % 8);
      }
    } else {
      var j: nat :| j < n && StorageByte(a, j) != StorageByte(b, j);
      DifferentBytes(StorageByte(a, j), StorageByte(b, j));
      var i: nat :| i < 8 && Bit(StorageByte(a, j), i) != Bit(StorageByte(b, j), i);
      StorageByteBit(a, j, i);
      StorageByteBit(b, j, i);
    }
  }

  lemma DifferentBytes(a: byte, b: byte)
    requires a != b
    ensures exists i: nat :: i < 8 && Bit(a, i) != Bit(b, i)
  {
    hide Bit;
    assert Pow2(8) == 256;
    if forall i: nat :: i < 8 ==> Bit(a, i) == Bit(b, i) { SameBits(a, b, 8); }
  }

  /** ~(0xFF << n), truncated to a byte. */
  function LowMask(n: nat): byte
    requires n <= 8
  {
    assert Pow2(8) == 256;
    Not(Low(Shl(0xFF, n), 8), 8)
  }

  lemma LowMaskBit(n: nat, i: nat)
    requires n <= 8 && i < 8
    ensures Bit(LowMask(n), i) == (i < n)
  {
    hide Bit, Low, Shl;
    assert Pow2(8) == 256;
    NotBit(Low(Shl(0xFF, n), 8), 8, i);
    LowBit(Shl(0xFF, n), 8, i);
    ShlBit(0xFF, n, i);
    if i >= n { OnesBit(8, i - n); }
  }

  lemma MaskedBytes(a: seq<word>, b: seq<word>, j: nat, n: nat)
    requires j / 4 < |a| && j / 4 < |b| && n <= 8
    ensures And(StorageByte(a, j), LowMask(n)) == And(StorageByte(b, j), LowMask(n))
            <==> forall k: nat :: 8 * j <= k < 8 * j + n ==> At(a, k) == At(b, k)
  {
    hide StorageByte, LowMask, And, Bit, At;
    var x, y := And(StorageByte(a, j), LowMask(n)), And(StorageByte(b, j), LowMask(n));
    forall i: nat | i < 8
      ensures Bit(x, i) == (i < n && At(a, 8 * j + i)) && Bit(y, i) == (i < n && At(b, 8 * j + i))
    {
      AndBit(StorageByte(a, j), LowMask(n), i);
      AndBit(StorageByte(b, j), LowMask(n), i);
      LowMaskBit(n, i);
      StorageByteBit(a, j, i);
      StorageByteBit(b, j, i);
    }
    if x == y {
      forall k: nat | 8 * j <= k < 8 * j + n ensures At(a, k) == At(b, k) { assert Bit(x, k - 8 * j) == Bit(y, k - 8 * j); }
    } else {
      DifferentBytes(x, y);
      var i: nat :| i < 8 && Bit(x, i) != Bit(y, i);
      assert At(a, 8 * j + i) != At(b, 8 * j + i);
    }
  }

  // ---------------------------------------------------------------- runs of operations

  datatype Op =
    | OpWrite(index: nat, value: bool)  // SetBit, ClearBit, WriteBit
    | OpClearAll
    | OpSetAll
    | OpResize(size: nat)
    | OpAssign(size: nat, data: Data)

  predicate Callable(op: Op)
  {
    op.OpAssign? && op.data.Bytes? ==> (op.size + 7) / 8 <= |op.data.bytes|
  }

  /** The effect of an operation on a sequence of booleans; one that throws has none. */
  function Effect(b: seq<bool>, op: Op): seq<bool>
  {
    match op
    case OpWrite(index, value) => if index < |b| then b[index := value] else b
    case OpClearAll => seq(|b|, _ => false)
    case OpSetAll => seq(|b|, _ => true)
    case OpResize(size) => if size > NO_BIT - 31 then b else ResizedTo(b, size)
    case OpAssign(size, data) => if data.Null? || size > NO_BIT - 31 then b else FirstBits(data.bytes, size)
  }

  function Effects(b: seq<bool>, ops: seq<Op>): seq<bool>
    decreases |ops|
  {
    if ops == [] then b else Effect(Effects(b, ops[..|ops| - 1]), ops[|ops| - 1])
  }

  /** Any run of operations acts on the bit field as it does on a sequence of booleans. */
  method Perform(f: BitField, ops: seq<Op>)
    requires f.Valid() && forall i :: 0 <= i < |ops| ==> Callable(ops[i])
    modifies f, f.storage
    ensures f.Valid() && f.Contents() == Effects(old(f.Contents()), ops)
  {
    hide ContentsOf, ResizedTo, FirstBits;
    ghost var b := f.Contents();
    for i := 0 to |ops|
      invariant f.Valid() && f.Contents() == Effects(b, ops[..i])
      invariant f.storage == old(f.storage) || fresh(f.storage)
    {
      assert ops[..i + 1][..i] == ops[..i];
      match ops[i] {
        case OpWrite(index, value) => var r := f.WriteBit(index, value);
        case OpClearAll => f.ClearAll();
        case OpSetAll => f.SetAll();
        case OpResize(size) =>
          SameSize(f.Contents());
          var r := f.Resize(size);
        case OpAssign(size, data) => var r := f.Assign(size, data);
      }
    }
    assert ops[..|ops|] == ops;
  }

  lemma SameSize(b: seq<bool>)
    ensures ResizedTo(b, |b|) == b
  {
  }
}
