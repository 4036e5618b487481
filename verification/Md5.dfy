/**
 MD5Sum (src/hash/md5.cpp) on a little-endian machine.
 */
module Md5 {
  import opened UInt
  import opened WordBits
  import opened Md5Spec

  datatype RoundCtrl = Ctrl(k: nat, s: nat)

  const Round1Ctrl: seq<RoundCtrl> := [
    Ctrl(0, 7), Ctrl(1, 12), Ctrl(2, 17), Ctrl(3, 22),
    Ctrl(4, 7), Ctrl(5, 12), Ctrl(6, 17), Ctrl(7, 22),
    Ctrl(8, 7), Ctrl(9, 12), Ctrl(10, 17), Ctrl(11, 22),
    Ctrl(12, 7), Ctrl(13, 12), Ctrl(14, 17), Ctrl(15, 22)
  ]

  const Round2Ctrl: seq<RoundCtrl> := [
    Ctrl(1, 5), Ctrl(6, 9), Ctrl(11, 14), Ctrl(0, 20),
    Ctrl(5, 5), Ctrl(10, 9), Ctrl(15, 14), Ctrl(4, 20),
    Ctrl(9, 5), Ctrl(14, 9), Ctrl(3, 14), Ctrl(8, 20),
    Ctrl(13, 5), Ctrl(2, 9), Ctrl(7, 14), Ctrl(12, 20)
  ]

  const Round3Ctrl: seq<RoundCtrl> := [
    Ctrl(5, 4), Ctrl(8, 11), Ctrl(11, 16), Ctrl(14, 23),
    Ctrl(1, 4), Ctrl(4, 11), Ctrl(7, 16), Ctrl(10, 23),
    Ctrl(13, 4), Ctrl(0, 11), Ctrl(3, 16), Ctrl(6, 23),
    Ctrl(9, 4), Ctrl(12, 11), Ctrl(15, 16), Ctrl(2, 23)
  ]

  const Round4Ctrl: seq<RoundCtrl> := [
    Ctrl(0, 6), Ctrl(7, 10), Ctrl(14, 15), Ctrl(5, 21),
    Ctrl(12, 6), Ctrl(3, 10), Ctrl(10, 15), Ctrl(1, 21),
    Ctrl(8, 6), Ctrl(15, 10), Ctrl(6, 15), Ctrl(13, 21),
    Ctrl(4, 6), Ctrl(11, 10), Ctrl(2, 15), Ctrl(9, 21)
  ]

  // ---------------------------------------------------------------- the optimised functions

  function OptF(x: word, y: word, z: word): word { WXor(z, WAnd(x, WXor(y, z))) }
  function OptG(x: word, y: word, z: word): word { WXor(y, WAnd(z, WXor(x, y))) }

  lemma WXorBit(a: word, b: word, i: nat)
    ensures Bit(WXor(a, b), i) == (Bit(a, i) != Bit(b, i))
  {
    XorBit(a, b, i);
  }

  lemma OptimisedF(x: word, y: word, z: word)
    ensures OptF(x, y, z) == F(x, y, z)
  {
    hide Bit, WXor, WAnd, WOr, WNot, Pow2;
    WordRange();
    forall i: nat | i < W ensures Bit(OptF(x, y, z), i) == Bit(F(x, y, z), i) {
      WXorBit(z, WAnd(x, WXor(y, z)), i);
      WAndBit(x, WXor(y, z), i);
      WXorBit(y, z, i);
      WOrBit(WAnd(x, y), WAnd(WNot(x), z), i);
      WAndBit(x, y, i);
      WAndBit(WNot(x), z, i);
      WNotBit(x, i);
    }
    SameBits(OptF(x, y, z), F(x, y, z), W);
  }

  lemma OptimisedG(x: word, y: word, z: word)
    ensures OptG(x, y, z) == G(x, y, z)
  {
    hide Bit, WXor, WAnd, WOr, WNot, Pow2;
    WordRange();
    forall i: nat | i < W ensures Bit(OptG(x, y, z), i) == Bit(G(x, y, z), i) {
      WXorBit(y, WAnd(z, WXor(x, y)), i);
      WAndBit(z, WXor(x, y), i);
      WXorBit(x, y, i);
      WOrBit(WAnd(x, z), WAnd(y, WNot(z)), i);
      WAndBit(x, z, i);
      WAndBit(y, WNot(z), i);
      WNotBit(z, i);
    }
    SameBits(OptG(x, y, z), G(x, y, z), W);
  }

  /** (v << n) | (v >> (32 - n)). */
  function RotateLeft(v: word, n: nat): word
    requires 0 < n < W
  {
    ShrLe(v, W - n);
    WOr(WShl(v, n), Shr(v, W - n))
  }

  lemma ShrLe(v: nat, k: nat)
    ensures Shr(v, k) <= v
  {
  }

  lemma RotationIsShift(v: word, n: nat)
    requires 0 < n < W
    ensures RotateLeft(v, n) == CircularShift(v, n)
  {
    hide Bit, Shl, Shr, Low, ToBits, FromBits, Pow2, WOr;
    WordRange();
    var b := ToBits(v, W);
    var s := b[W - n..] + b[..W - n];
    ToFromBits(s);
    ShrLe(v, W - n);
    forall i: nat | i < W ensures Bit(RotateLeft(v, n), i) == Bit(CircularShift(v, n), i) {
      WOrBit(WShl(v, n), Shr(v, W - n), i);
      LowBit(Shl(v, n), W, i);
      ShlBit(v, n, i);
      ShrBit(v, W - n, i);
      ToBitsAt(CircularShift(v, n), W, i);
      if i < n {
        ToBitsAt(v, W, W - n + i);
      } else {
        BitBeyond(v, W, i + (W - n));
        ToBitsAt(v, W, i - n);
      }
    }
    SameBits(RotateLeft(v, n), CircularShift(v, n), W);
  }

  // ---------------------------------------------------------------- register rotation

  /** The registers in the order in which operation n uses them. */
  function View(n: nat, r: Registers): Registers
  {
    var i := First(n);
    [r[i], r[(i + 1) % 4], r[(i + 2) % 4], r[(i + 3) % 4]]
  }

  /** An operation on fixed registers A, B, C, D followed by RotateRegisters is the operation on rotating roles. */
  lemma RotatedOperation(n: nat, r: Registers, block: seq<byte>, v: word, a: word)
    requires n < 64 && |block| == 64
    requires var q := View(n, r);
             && v == Plus(Plus(Plus(q[0], Auxiliary(n, q[1], q[2], q[3])), X(block, K(n))), T[n])
             && a == Plus(q[1], CircularShift(v, S(n)))
    ensures var q := View(n, r); View(n + 1, Operation(n, r, block)) == [q[3], a, q[1], q[2]]
  {
    hide Auxiliary, CircularShift, X, K, S, Plus, First;
    var i := First(n);
    NextFirst(n);
    assert Operation(n, r, block) == r[i := a];
    RotatedView(i, r, a);
  }

  lemma RotatedView(i: nat, r: Registers, a: word)
    requires i < 4
    ensures var j, u := (i + 3) % 4, r[i := a];
            [u[j], u[(j + 1) % 4], u[(j + 2) % 4], u[(j + 3) % 4]] == [r[(i + 3) % 4], a, r[(i + 1) % 4], r[(i + 2) % 4]]
  {
    match i
    case 0 =>
    case 1 =>
    case 2 =>
    case _ =>
  }

  lemma NextFirst(n: nat)
    ensures First(n + 1) == (First(n) + 3) % 4 && First(n) < 4
  {
  }

  lemma Table1(i: nat)
    requires i < 16
    ensures Round1Ctrl[i] == Ctrl(K(i), S(i))
  {
  }

  lemma Table2(i: nat)
    requires i < 16
    ensures Round2Ctrl[i] == Ctrl(K(16 + i), S(16 + i))
  {
  }

  lemma Table3(i: nat)
    requires i < 16
    ensures Round3Ctrl[i] == Ctrl(K(32 + i), S(32 + i))
  {
  }

  lemma Table4(i: nat)
    requires i < 16
    ensures Round4Ctrl[i] == Ctrl(K(48 + i), S(48 + i))
  {
  }

  // ---------------------------------------------------------------- four rounds

  method Round1(A0: word, B0: word, C0: word, D0: word, block: array<byte>, ghost r0: Registers)
    returns (A: word, B: word, C: word, D: word)
    requires block.Length == 64 && [A0, B0, C0, D0] == View(0, Operations(0, r0, block[..]))
    ensures [A, B, C, D] == View(16, Operations(16, r0, block[..]))
  {
    hide View, Auxiliary, CircularShift, RotateLeft, X, K, S, Plus, Operation, F, G, H, I, OptF, OptG;
    A, B, C, D := A0, B0, C0, D0;
    for i := 0 to 16
      invariant [A, B, C, D] == View(i, Operations(i, r0, block[..]))
    {
      ghost var before := Operations(i, r0, block[..]);
      A, B, C, D := Step1(A, B, C, D, i, block, before);
    }
  }

  /** One pass of the loop of round 1. */
  method Step1(A0: word, B0: word, C0: word, D0: word, i: nat, block: array<byte>, ghost before: Registers)
    returns (A: word, B: word, C: word, D: word)
    requires i < 16 && block.Length == 64 && [A0, B0, C0, D0] == View(i, before)
    ensures [A, B, C, D] == View(i + 1, Operation(i, before, block[..]))
  {
    hide View, CircularShift, RotateLeft, X, K, S, Plus, Operation, F, G, H, I, OptF, OptG;
    A, B, C, D := A0, B0, C0, D0;
    ghost var q := View(i, before);
    assert q[0] == A && q[1] == B && q[2] == C && q[3] == D;
    OptimisedF(B, C, D);
    Table1(i);
    var ctrl := Round1Ctrl[i];
    var v := Plus(Plus(Plus(A, OptF(B, C, D)), X(block[..], ctrl.k)), T[i]);
    RotationIsShift(v, ctrl.s);
    A := Plus(B, RotateLeft(v, ctrl.s));
    RotatedOperation(i, before, block[..], v, A);
    // RotateRegisters
    A, B, C, D := D, A, B, C;
  }

  method Round2(A0: word, B0: word, C0: word, D0: word, block: array<byte>, ghost r0: Registers)
    returns (A: word, B: word, C: word, D: word)
    requires block.Length == 64 && [A0, B0, C0, D0] == View(16, Operations(16, r0, block[..]))
    ensures [A, B, C, D] == View(32, Operations(32, r0, block[..]))
  {
    hide View, Auxiliary, CircularShift, RotateLeft, X, K, S, Plus, Operation, F, G, H, I, OptF, OptG;
    A, B, C, D := A0, B0, C0, D0;
    for i := 0 to 16
      invariant [A, B, C, D] == View(16 + i, Operations(16 + i, r0, block[..]))
    {
      ghost var before := Operations(16 + i, r0, block[..]);
      A, B, C, D := Step2(A, B, C, D, i, block, before);
    }
  }

  /** One pass of the loop of round 2. */
  method Step2(A0: word, B0: word, C0: word, D0: word, i: nat, block: array<byte>, ghost before: Registers)
    returns (A: word, B: word, C: word, D: word)
    requires i < 16 && block.Length == 64 && [A0, B0, C0, D0] == View(16 + i, before)
    ensures [A, B, C, D] == View(16 + i + 1, Operation(16 + i, before, block[..]))
  {
    hide View, CircularShift, RotateLeft, X, K, S, Plus, Operation, F, G, H, I, OptF, OptG;
    A, B, C, D := A0, B0, C0, D0;
    ghost var q := View(16 + i, before);
    assert q[0] == A && q[1] == B && q[2] == C && q[3] == D;
    OptimisedG(B, C, D);
    Table2(i);
    var ctrl := Round2Ctrl[i];
    var v := Plus(Plus(Plus(A, OptG(B, C, D)), X(block[..], ctrl.k)), T[16 + i]);
    RotationIsShift(v, ctrl.s);
    A := Plus(B, RotateLeft(v, ctrl.s));
    RotatedOperation(16 + i, before, block[..], v, A);
    // RotateRegisters
    A, B, C, D := D, A, B, C;
  }

  method Round3(A0: word, B0: word, C0: word, D0: word, block: array<byte>, ghost r0: Registers)
    returns (A: word, B: word, C: word, D: word)
    requires block.Length == 64 && [A0, B0, C0, D0] == View(32, Operations(32, r0, block[..]))
    ensures [A, B, C, D] == View(48, Operations(48, r0, block[..]))
  {
    hide View, Auxiliary, CircularShift, RotateLeft, X, K, S, Plus, Operation, F, G, H, I, OptF, OptG;
    A, B, C, D := A0, B0, C0, D0;
    for i := 0 to 16
      invariant [A, B, C, D] == View(32 + i, Operations(32 + i, r0, block[..]))
    {
      ghost var before := Operations(32 + i, r0, block[..]);
      A, B, C, D := Step3(A, B, C, D, i, block, before);
    }
  }

  /** One pass of the loop of round 3. */
  method Step3(A0: word, B0: word, C0: word, D0: word, i: nat, block: array<byte>, ghost before: Registers)
    returns (A: word, B: word, C: word, D: word)
    requires i < 16 && block.Length == 64 && [A0, B0, C0, D0] == View(32 + i, before)
    ensures [A, B, C, D] == View(32 + i + 1, Operation(32 + i, before, block[..]))
  {
    hide View, CircularShift, RotateLeft, X, K, S, Plus, Operation, F, G, H, I, OptF, OptG;
    A, B, C, D := A0, B0, C0, D0;
    ghost var q := View(32 + i, before);
    assert q[0] == A && q[1] == B && q[2] == C && q[3] == D;
    Table3(i);
    var ctrl := Round3Ctrl[i];
    var v := Plus(Plus(Plus(A, H(B, C, D)), X(block[..], ctrl.k)), T[32 + i]);
    RotationIsShift(v, ctrl.s);
    A := Plus(B, RotateLeft(v, ctrl.s));
    RotatedOperation(32 + i, before, block[..], v, A);
    // RotateRegisters
    A, B, C, D := D, A, B, C;
  }

  method Round4(A0: word, B0: word, C0: word, D0: word, block: array<byte>, ghost r0: Registers)
    returns (A: word, B: word, C: word, D: word)
    requires block.Length == 64 && [A0, B0, C0, D0] == View(48, Operations(48, r0, block[..]))
    ensures [A, B, C, D] == View(64, Operations(64, r0, block[..]))
  {
    hide View, Auxiliary, CircularShift, RotateLeft, X, K, S, Plus, Operation, F, G, H, I, OptF, OptG;
    A, B, C, D := A0, B0, C0, D0;
    for i := 0 to 16
      invariant [A, B, C, D] == View(48 + i, Operations(48 + i, r0, block[..]))
    {
      ghost var before := Operations(48 + i, r0, block[..]);
      A, B, C, D := Step4(A, B, C, D, i, block, before);
    }
  }

  /** One pass of the loop of round 4. */
  method Step4(A0: word, B0: word, C0: word, D0: word, i: nat, block: array<byte>, ghost before: Registers)
    returns (A: word, B: word, C: word, D: word)
    requires i < 16 && block.Length == 64 && [A0, B0, C0, D0] == View(48 + i, before)
    ensures [A, B, C, D] == View(48 + i + 1, Operation(48 + i, before, block[..]))
  {
    hide View, CircularShift, RotateLeft, X, K, S, Plus, Operation, F, G, H, I, OptF, OptG;
    A, B, C, D := A0, B0, C0, D0;
    ghost var q := View(48 + i, before);
    assert q[0] == A && q[1] == B && q[2] == C && q[3] == D;
    Table4(i);
    var ctrl := Round4Ctrl[i];
    var v := Plus(Plus(Plus(A, I(B, C, D)), X(block[..], ctrl.k)), T[48 + i]);
    RotationIsShift(v, ctrl.s);
    A := Plus(B, RotateLeft(v, ctrl.s));
    RotatedOperation(48 + i, before, block[..], v, A);
    // RotateRegisters
    A, B, C, D := D, A, B, C;
  }

  lemma ViewWhole(n: nat, r: Registers)
    requires n % 4 == 0
    ensures View(n, r) == r
  {
  }

  /** The rounds and the final additions for one block. */
  method ProcessBlock(AA: word, BB: word, CC: word, DD: word, block: array<byte>)
    returns (A: word, B: word, C: word, D: word)
    requires block.Length == 64
    ensures [A, B, C, D] == Compress([AA, BB, CC, DD], block[..])
  {
    hide View, Operation, Plus;
    ghost var r0: Registers := [AA, BB, CC, DD];
    ViewWhole(0, r0);
    assert Operations(0, r0, block[..]) == r0;
    A, B, C, D := Round1(AA, BB, CC, DD, block, r0);
    A, B, C, D := Round2(A, B, C, D, block, r0);
    A, B, C, D := Round3(A, B, C, D, block, r0);
    A, B, C, D := Round4(A, B, C, D, block, r0);
    ghost var q := Operations(64, r0, block[..]);
    ViewWhole(64, q);
    assert q[0] == A && q[1] == B && q[2] == C && q[3] == D;
    A := Plus(A, AA);
    B := Plus(B, BB);
    C := Plus(C, CC);
    D := Plus(D, DD);
  }
}
