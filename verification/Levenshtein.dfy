/**
 Levenshtein distance (src/string/levenshtein_distance.cpp): edit scripts, the distance as a recursion over the last
 characters, and the two-row loop.
 */
module Levenshtein {
  import opened Ascii

  // ---------------------------------------------------------------- edit scripts

  datatype Edit = Insert(pos: nat, c: char) | Remove(pos: nat) | Replace(pos: nat, c: char)

  datatype Option<T> = None | Some(value: T)

  /** The string after one edit; None if there is no such position. */
  function Apply(s: string, e: Edit): Option<string>
  {
    match e
    case Insert(pos, c) => if pos <= |s| then Some(s[..pos] + [c] + s[pos..]) else None
    case Remove(pos) => if pos < |s| then Some(s[..pos] + s[pos + 1..]) else None
    case Replace(pos, c) => if pos < |s| then Some(s[..pos] + [c] + s[pos + 1..]) else None
  }

  function Run(s: string, script: seq<Edit>): Option<string>
    decreases |script|
  {
    if script == [] then Some(s) else
      match Apply(s, script[0]) case None => None case Some(t) => Run(t, script[1..])
  }

  /** What a comparison sees of a string. */
  function Fold(s: string, caseSensitive: bool): (r: string)
    ensures |r| == |s|
  {
    if caseSensitive then s else seq(|s|, i requires 0 <= i < |s| => ToUpper(s[i]))
  }

  /** Which strings look the same. */
  lemma FoldMeans(a: string, b: string, caseSensitive: bool)
    ensures Fold(a, caseSensitive) == Fold(b, caseSensitive) <==> Alike(a, b, caseSensitive)
  {
    hide ToUpper;
    var x, y := Fold(a, caseSensitive), Fold(b, caseSensitive);
    if |a| == |b| {
      forall i | 0 <= i < |a| ensures x[i] == y[i] <==> SameChar(a[i], b[i], caseSensitive) { ToUpperMeans(a[i], b[i]); }
    }
  }

  // ---------------------------------------------------------------- the distance

  function Min(a: nat, b: nat): nat { if a <= b then a else b }

  function Init(s: string): (r: string)
    requires s != []
    ensures |r| == |s| - 1
  {
    s[..|s| - 1]
  }

  function Cost(a: string, b: string): nat
    requires a != [] && b != []
  {
    if a[|a| - 1] == b[|b| - 1] then 0 else 1
  }

  function D(a: string, b: string): nat
    decreases |a| + |b|
  {
    if a == [] then |b|
    else if b == [] then |a|
    else Min(Min(D(a, Init(b)), D(Init(a), b)) + 1, D(Init(a), Init(b)) + Cost(a, b))
  }

  lemma {:induction false} Symmetric(a: string, b: string)
    ensures D(a, b) == D(b, a)
    decreases |a| + |b|
  {
    if a != [] && b != [] {
      Symmetric(a, Init(b));
      Symmetric(Init(a), b);
      Symmetric(Init(a), Init(b));
    }
  }

  lemma {:induction false} Bounds(a: string, b: string)
    ensures D(a, b) <= |a| || D(a, b) <= |b|
    ensures |a| <= D(a, b) + |b| && |b| <= D(a, b) + |a|
    decreases |a| + |b|
  {
    if a != [] && b != [] {
      Bounds(a, Init(b));
      Bounds(Init(a), b);
      Bounds(Init(a), Init(b));
    }
  }

  lemma {:induction false} Triangle(a: string, b: string, c: string)
    ensures D(a, c) <= D(a, b) + D(b, c)
    decreases |a| + |b| + |c|
  {
    if a == [] || b == [] || c == [] {
      Bounds(a, b);
      Bounds(b, c);
      Bounds(a, c);
    } else {
      TriangleStep(a, b, c);
    }
  }

  lemma TriangleStep(a: string, b: string, c: string)
    requires a != [] && b != [] && c != []
    ensures D(a, c) <= D(a, b) + D(b, c)
    decreases |a| + |b| + |c|, 0
  {
    hide Init;
    if D(a, b) == D(Init(a), b) + 1 {
      Triangle(Init(a), b, c);
    } else if D(b, c) == D(b, Init(c)) + 1 {
      Triangle(a, b, Init(c));
    } else if D(a, b) == D(a, Init(b)) + 1 {
      Triangle(a, Init(b), c);
      Triangle(a, Init(b), Init(c));
    } else {
      Triangle(Init(a), Init(b), c);
      Triangle(Init(a), Init(b), Init(c));
    }
  }

  lemma {:induction false} Same(a: string)
    ensures D(a, a) == 0
    decreases |a|
  {
    if a != [] { Same(Init(a)); }
  }

  /** A common tail does not matter. */
  lemma {:induction false} CommonTail(x: string, y: string, t: string)
    ensures D(x + t, y + t) <= D(x, y)
    decreases |t|
  {
    if t == [] {
      assert x + t == x && y + t == y;
    } else {
      assert Init(x + t) == x + Init(t) && Init(y + t) == y + Init(t);
      CommonTail(x, y, Init(t));
    }
  }

  lemma OneEdit(s: string, e: Edit)
    requires Apply(s, e).Some?
    ensures D(s, Apply(s, e).value) <= 1
  {
    hide D;
    var p, r := e.pos, Apply(s, e).value;
    match e
    case Insert(_, c) =>
      EditParts(s, p, p);
      OneInserted(s[..p], c);
      CommonTail(s[..p], s[..p] + [c], s[p..]);
    case Remove(_) =>
      EditParts(s, p, p + 1);
      OneRemoved(s[..p], s[p]);
      CommonTail(s[..p] + [s[p]], s[..p], s[p + 1..]);
    case Replace(_, c) =>
      EditParts(s, p, p + 1);
      OneChanged(s[..p], s[p], c);
      CommonTail(s[..p] + [s[p]], s[..p] + [c], s[p + 1..]);
  }

  lemma EditParts(s: string, p: nat, q: nat)
    requires p <= q <= |s| && q <= p + 1
    ensures s == s[..p] + (if q == p then "" else [s[p]]) + s[q..]
    ensures q == p ==> s == s[..p] + s[p..]
    ensures q == p + 1 ==> s == s[..p] + [s[p]] + s[p + 1..]
  {
  }

  lemma OneInserted(x: string, c: char)
    ensures D(x, x + [c]) <= 1
  {
    Same(x);
    assert Init(x + [c]) == x;
  }

  lemma OneRemoved(x: string, c: char)
    ensures D(x + [c], x) <= 1
  {
    Same(x);
    assert Init(x + [c]) == x;
  }

  lemma OneChanged(x: string, b: char, c: char)
    ensures D(x + [b], x + [c]) <= 1
  {
    Same(x);
    assert Init(x + [b]) == x && Init(x + [c]) == x;
  }

  /** No script is shorter than the distance. */
  lemma {:induction false} ScriptIsLong(s: string, script: seq<Edit>)
    requires Run(s, script).Some?
    ensures D(s, Run(s, script).value) <= |script|
    decreases |script|
  {
    hide D, Apply;
    if script == [] {
      Same(s);
    } else {
      var t := Apply(s, script[0]).value;
      OneEdit(s, script[0]);
      ScriptIsLong(t, script[1..]);
      Triangle(s, t, Run(s, script).value);
    }
  }

  /** Comparing without regard to case brings strings closer. */
  lemma {:induction false} FoldCloser(a: string, b: string, caseSensitive: bool)
    ensures D(Fold(a, caseSensitive), Fold(b, caseSensitive)) <= D(a, b)
    decreases |a| + |b|
  {
    if a != [] && b != [] {
      FoldInit(a, caseSensitive);
      FoldInit(b, caseSensitive);
      FoldCloser(a, Init(b), caseSensitive);
      FoldCloser(Init(a), b, caseSensitive);
      FoldCloser(Init(a), Init(b), caseSensitive);
    }
  }

  lemma FoldInit(a: string, caseSensitive: bool)
    requires a != []
    ensures Init(Fold(a, caseSensitive)) == Fold(Init(a), caseSensitive)
    ensures Fold(a, caseSensitive)[|a| - 1] == if caseSensitive then a[|a| - 1] else ToUpper(a[|a| - 1])
  {
  }

  /** A script as long as the distance, found by following the recursion; the last edit comes first. */
  function Script(a: string, b: string, caseSensitive: bool): (r: seq<Edit>)
    decreases |a| + |b|
  {
    if a == [] && b == [] then []
    else if a == [] then [Insert(0, b[|b| - 1])] + Script(a, Init(b), caseSensitive)
    else if b == [] then [Remove(|a| - 1)] + Script(Init(a), b, caseSensitive)
    else
      var x, y := Fold(a, caseSensitive), Fold(b, caseSensitive);
      if D(x, y) == D(Init(x), Init(y)) + Cost(x, y) then
        (if Cost(x, y) == 0 then [] else [Replace(|a| - 1, b[|b| - 1])]) + Script(Init(a), Init(b), caseSensitive)
      else if D(x, y) == D(Init(x), y) + 1 then [Remove(|a| - 1)] + Script(Init(a), b, caseSensitive)
      else [Insert(|a|, b[|b| - 1])] + Script(a, Init(b), caseSensitive)
  }

  ghost predicate Turns(s: string, script: seq<Edit>, t: string, caseSensitive: bool)
  {
    Run(s, script).Some? && Alike(Run(s, script).value, t, caseSensitive)
  }

  lemma EmptyD(x: string, y: string)
    requires |x| == 0 || |y| == 0
    ensures D(x, y) == |x| + |y|
  {
  }

  lemma {:induction false} ScriptLength(a: string, b: string, caseSensitive: bool)
    ensures |Script(a, b, caseSensitive)| == D(Fold(a, caseSensitive), Fold(b, caseSensitive))
    decreases |a| + |b|
  {
    hide Fold, Init;
    if a == [] || b == [] {
      EmptyD(Fold(a, caseSensitive), Fold(b, caseSensitive));
      if b != [] {
        ScriptLength(a, Init(b), caseSensitive);
        EmptyD(Fold(a, caseSensitive), Fold(Init(b), caseSensitive));
      } else if a != [] {
        ScriptLength(Init(a), b, caseSensitive);
        EmptyD(Fold(Init(a), caseSensitive), Fold(b, caseSensitive));
      }
    } else {
      FoldInit(a, caseSensitive);
      FoldInit(b, caseSensitive);
      ScriptLength(a, Init(b), caseSensitive);
      ScriptLength(Init(a), b, caseSensitive);
      ScriptLength(Init(a), Init(b), caseSensitive);
    }
  }

  /** The script turns a into (something that looks like) b, whatever stands behind a. */
  lemma {:induction false} ScriptWorks(a: string, b: string, tail: string, caseSensitive: bool)
    ensures Run(a + tail, Script(a, b, caseSensitive)).Some?
    ensures Fold(Run(a + tail, Script(a, b, caseSensitive)).value, caseSensitive) == Fold(b + tail, caseSensitive)
    decreases |a| + |b|
  {
    var script := Script(a, b, caseSensitive);
    if a == [] && b == [] {
    } else if a == [] {
      Inserted(a, b, tail, caseSensitive);
      ScriptWorks(a, Init(b), [b[|b| - 1]] + tail, caseSensitive);
    } else if b == [] {
      Removed(a, tail);
      ScriptWorks(Init(a), b, tail, caseSensitive);
    } else {
      var x, y := Fold(a, caseSensitive), Fold(b, caseSensitive);
      if D(x, y) == D(Init(x), Init(y)) + Cost(x, y) {
        if Cost(x, y) == 0 {
          Kept(a, b, tail, caseSensitive);
          ScriptWorks(Init(a), Init(b), [a[|a| - 1]] + tail, caseSensitive);
          assert [] + Script(Init(a), Init(b), caseSensitive) == Script(Init(a), Init(b), caseSensitive);
        } else {
          Replaced(a, b, tail, caseSensitive);
          ScriptWorks(Init(a), Init(b), [b[|b| - 1]] + tail, caseSensitive);
        }
      } else if D(x, y) == D(Init(x), y) + 1 {
        Removed(a, tail);
        ScriptWorks(Init(a), b, tail, caseSensitive);
      } else {
        Inserted(a, b, tail, caseSensitive);
        ScriptWorks(a, Init(b), [b[|b| - 1]] + tail, caseSensitive);
      }
    }
  }

  lemma Inserted(a: string, b: string, tail: string, caseSensitive: bool)
    requires b != []
    ensures Apply(a + tail, Insert(|a|, b[|b| - 1])) == Some(a + ([b[|b| - 1]] + tail))
    ensures Init(b) + ([b[|b| - 1]] + tail) == b + tail
  {
    var c := b[|b| - 1];
    assert (a + tail)[..|a|] + [c] + (a + tail)[|a|..] == a + ([c] + tail);
    assert Init(b) + [c] == b;
  }

  lemma Removed(a: string, tail: string)
    requires a != []
    ensures Apply(a + tail, Remove(|a| - 1)) == Some(Init(a) + tail)
  {
    var p := |a| - 1;
    assert (a + tail)[..p] + (a + tail)[p + 1..] == Init(a) + tail;
  }

  lemma Replaced(a: string, b: string, tail: string, caseSensitive: bool)
    requires a != [] && b != []
    ensures Apply(a + tail, Replace(|a| - 1, b[|b| - 1])) == Some(Init(a) + ([b[|b| - 1]] + tail))
    ensures Init(b) + ([b[|b| - 1]] + tail) == b + tail
  {
    var p, c := |a| - 1, b[|b| - 1];
    assert (a + tail)[..p] + [c] + (a + tail)[p + 1..] == Init(a) + ([c] + tail);
    assert Init(b) + [c] == b;
  }

  lemma Kept(a: string, b: string, tail: string, caseSensitive: bool)
    requires a != [] && b != [] && Cost(Fold(a, caseSensitive), Fold(b, caseSensitive)) == 0
    ensures a + tail == Init(a) + ([a[|a| - 1]] + tail)
    ensures Fold(Init(b) + ([a[|a| - 1]] + tail), caseSensitive) == Fold(b + tail, caseSensitive)
  {
    hide Fold;
    var x := a[|a| - 1];
    FoldInit(a, caseSensitive);
    FoldInit(b, caseSensitive);
    FoldChange(b + tail, |b| - 1, x, caseSensitive);
    assert Init(b) + ([x] + tail) == (b + tail)[|b| - 1 := x];
  }

  lemma FoldChange(s: string, i: nat, c: char, caseSensitive: bool)
    requires i < |s| && if caseSensitive then c == s[i] else ToUpper(c) == ToUpper(s[i])
    ensures Fold(s[i := c], caseSensitive) == Fold(s, caseSensitive)
  {
    hide ToUpper;
    if caseSensitive { assert s[i := c] == s; }
  }

  /** The number of operations in a shortest script. */
  function Distance(a: string, b: string, caseSensitive: bool): nat
  {
    D(Fold(a, caseSensitive), Fold(b, caseSensitive))
  }

  /** Some script of that length turns a into b, and no shorter one does. */
  lemma ShortestScript(a: string, b: string, caseSensitive: bool)
    ensures exists script :: Turns(a, script, b, caseSensitive) && |script| == Distance(a, b, caseSensitive)
    ensures forall script :: Turns(a, script, b, caseSensitive) ==> Distance(a, b, caseSensitive) <= |script|
  {
    hide D, Fold, Run, Alike;
    ScriptLength(a, b, caseSensitive);
    ScriptWorks(a, b, "", caseSensitive);
    assert a + "" == a && b + "" == b;
    FoldMeans(Run(a, Script(a, b, caseSensitive)).value, b, caseSensitive);
    assert Turns(a, Script(a, b, caseSensitive), b, caseSensitive);
    forall script | Turns(a, script, b, caseSensitive) ensures Distance(a, b, caseSensitive) <= |script| {
      ScriptIsLong(a, script);
      FoldCloser(a, Run(a, script).value, caseSensitive);
      FoldMeans(Run(a, script).value, b, caseSensitive);
    }
  }

  lemma DistanceMetric(a: string, b: string, c: string, caseSensitive: bool)
    ensures Distance(a, b, caseSensitive) == Distance(b, a, caseSensitive)
    ensures Distance(a, c, caseSensitive) <= Distance(a, b, caseSensitive) + Distance(b, c, caseSensitive)
    ensures Distance(a, b, caseSensitive) == 0 <==> Alike(a, b, caseSensitive)
  {
    hide D, Fold, Alike;
    FoldMeans(a, b, caseSensitive);
    Symmetric(Fold(a, caseSensitive), Fold(b, caseSensitive));
    Triangle(Fold(a, caseSensitive), Fold(b, caseSensitive), Fold(c, caseSensitive));
    ZeroOnlyIfSame(Fold(a, caseSensitive), Fold(b, caseSensitive));
  }

  lemma {:induction false} ZeroOnlyIfSame(a: string, b: string)
    ensures D(a, b) == 0 <==> a == b
    decreases |a|
  {
    Same(a);
    if a != [] && b != [] {
      ZeroOnlyIfSame(Init(a), Init(b));
      assert a == Init(a) + [a[|a| - 1]] && b == Init(b) + [b[|b| - 1]];
    }
  }

  // ---------------------------------------------------------------- the implementation

  datatype Result = Ok(distance: nat) | InvalidArgument

  /** The sum of two values of an unsigned type whose largest value is `max`. */
  function Plus(a: nat, b: nat, max: nat): nat { (a + b) % (max + 1) }

  /** LevenshteinDistance_Core_T for a type T whose largest value is `max`. */
  method Core_T(s1: string, s2: string, max: nat, caseSensitive: bool) returns (r: Result)
    requires |s1| <= max && |s2| <= max
    ensures r.InvalidArgument? <==> s1 != [] && s2 != [] && (|s1| == max || |s2| == max)
    ensures r.Ok? ==> r.distance == Distance(s1, s2, caseSensitive) <= max
  {
    hide Fold, D;
    var pS1, pS2 := s1, s2;
    EmptyStrings(s1, s2, caseSensitive);
    if |s1| == 0 { return Ok(|s2|); }
    if |s2| == 0 { return Ok(|s1|); }
    if |s1| == max || |s2| == max { return InvalidArgument; }
    // rows have the length of the shorter string
    if |pS2| > |pS1| {
      pS1, pS2 := pS2, pS1;
      Symmetric(Fold(s1, caseSensitive), Fold(s2, caseSensitive));
    }
    ghost var x, y := Fold(pS1, caseSensitive), Fold(pS2, caseSensitive);
    var v0 := new nat[|pS2| + 1];
    var v1 := new nat[|pS2| + 1];
    FirstRow(x, y);
    for i := 0 to |pS2| + 1
      invariant forall k :: 0 <= k < i ==> v0[k] == Cell(x, y, 0, k)
    {
      v0[i] := i;
    }
    for i := 0 to |pS1|
      invariant v0 != v1 && v0.Length == v1.Length == |pS2| + 1 && fresh(v0) && fresh(v1)
      invariant forall k :: 0 <= k <= |pS2| ==> v0[k] == Cell(x, y, i, k)
    {
      NextRow(pS1, pS2, i, max, caseSensitive, v0, v1);
      v0, v1 := v1, v0;
    }
    CellBounds(x, y, |x|, |y|);
    assert x[..|x|] == x && y[..|y|] == y;
    r := Ok(v0[|pS2|]);
  }

  /** Entry k of row i: the distance between the first i and the first k characters. */
  ghost function Cell(x: string, y: string, i: int, k: int): nat
  {
    if 0 <= i <= |x| && 0 <= k <= |y| then D(x[..i], y[..k]) else 0
  }

  lemma EmptyStrings(s1: string, s2: string, caseSensitive: bool)
    ensures s1 == [] ==> Distance(s1, s2, caseSensitive) == |s2|
    ensures s2 == [] ==> Distance(s1, s2, caseSensitive) == |s1|
  {
  }

  lemma FirstRow(x: string, y: string)
    ensures forall k :: 0 <= k <= |y| ==> Cell(x, y, 0, k) == k
  {
  }

  lemma CellBounds(x: string, y: string, i: int, k: int)
    requires 0 <= i <= |x| && 0 <= k <= |y|
    ensures Cell(x, y, i, k) <= i || Cell(x, y, i, k) <= k
  {
    hide D;
    Bounds(x[..i], y[..k]);
  }

  lemma CellStep(x: string, y: string, i: int, k: int)
    requires 0 <= i < |x| && 0 <= k < |y|
    ensures Cell(x, y, i + 1, 0) == i + 1
    ensures Cell(x, y, i + 1, k + 1) ==
            Min(Min(Cell(x, y, i + 1, k), Cell(x, y, i, k + 1)) + 1, Cell(x, y, i, k) + if x[i] == y[k] then 0 else 1)
  {
    var a, b := x[..i + 1], y[..k + 1];
    assert Init(a) == x[..i] && Init(b) == y[..k];
    assert a != [] && b != [];
  }

  /** One pass of the outer loop: fills v1 from v0. */
  method NextRow(pS1: string, pS2: string, i: nat, max: nat, caseSensitive: bool, v0: array<nat>, v1: array<nat>)
    requires i < |pS1| < max && 0 < |pS2| < max && v0 != v1 && v0.Length == v1.Length == |pS2| + 1
    requires forall k :: 0 <= k <= |pS2| ==> v0[k] == Cell(Fold(pS1, caseSensitive), Fold(pS2, caseSensitive), i, k)
    modifies v1
    ensures forall k :: 0 <= k <= |pS2| ==> v1[k] == Cell(Fold(pS1, caseSensitive), Fold(pS2, caseSensitive), i + 1, k)
  {
    hide Fold, D, Cell;
    ghost var x, y := Fold(pS1, caseSensitive), Fold(pS2, caseSensitive);
    CellStep(x, y, i, 0);
    v1[0] := i + 1;
    var cS1 := pS1[i];
    if !caseSensitive { cS1 := ToUpper(cS1); }
    FoldAt(pS1, i, caseSensitive);
    for j := 0 to |pS2|
      invariant forall k :: 0 <= k <= j ==> v1[k] == Cell(x, y, i + 1, k)
    {
      var cost;
      if caseSensitive {
        cost := if cS1 == pS2[j] then 0 else 1;
      } else {
        cost := if cS1 == ToUpper(pS2[j]) then 0 else 1;
      }
      FoldAt(pS2, j, caseSensitive);
      CellStep(x, y, i, j);
      CellBounds(x, y, i + 1, j);
      CellBounds(x, y, i, j + 1);
      CellBounds(x, y, i, j);
      NoOverflow(Min(v1[j], v0[j + 1]), 1, max);
      NoOverflow(v0[j], cost, max);
      v1[j + 1] := Min(Plus(Min(v1[j], v0[j + 1]), 1, max), Plus(v0[j], cost, max));
    }
  }

  lemma NoOverflow(a: nat, b: nat, max: nat)
    requires a + b <= max
    ensures Plus(a, b, max) == a + b
  {
  }

  lemma FoldAt(s: string, i: nat, caseSensitive: bool)
    requires i < |s|
    ensures Fold(s, caseSensitive)[i] == if caseSensitive then s[i] else ToUpper(s[i])
  {
  }

  const UINT8_MAX: nat := 0xFF
  const UINT16_MAX: nat := 0xFFFF
  const UINT32_MAX: nat := 0xFFFF_FFFF
  const SIZE_MAX: nat := 0xFFFF_FFFF_FFFF_FFFF

  /** LevenshteinDistance_Core: chooses T. */
  method Core(s1: string, s2: string, caseSensitive: bool) returns (r: Result)
    requires |s1| <= SIZE_MAX && |s2| <= SIZE_MAX
    ensures r.InvalidArgument? <==> s1 != [] && s2 != [] && (|s1| == SIZE_MAX || |s2| == SIZE_MAX)
    ensures r.Ok? ==> r.distance == Distance(s1, s2, caseSensitive)
  {
    hide Distance;
    var max := if |s1| >= |s2| then |s1| else |s2|;
    if max < UINT8_MAX {
      r := Core_T(s1, s2, UINT8_MAX, caseSensitive);
    } else if max < UINT16_MAX {
      r := Core_T(s1, s2, UINT16_MAX, caseSensitive);
    } else if max < UINT32_MAX {
      r := Core_T(s1, s2, UINT32_MAX, caseSensitive);
    } else {
      r := Core_T(s1, s2, SIZE_MAX, caseSensitive);
    }
  }

  /** LevenshteinDistance. */
  method LevenshteinDistance(str1: string, str2: string, caseSensitive: bool) returns (r: Result)
    requires |str1| <= SIZE_MAX && |str2| <= SIZE_MAX
    ensures r.InvalidArgument? <==> str1 != str2 && str1 != [] && str2 != [] && (|str1| == SIZE_MAX || |str2| == SIZE_MAX)
    ensures r.Ok? ==> r.distance == Distance(str1, str2, caseSensitive)
  {
    hide D;
    if str1 == str2 {
      Same(Fold(str1, caseSensitive));
      return Ok(0);
    }
    r := Core(str1, str2, caseSensitive);
  }
}
