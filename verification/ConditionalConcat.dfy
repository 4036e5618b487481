/**
 ConditionalConcat (src/string/tools.cpp): glues neighbouring strings together where a glue character stands between
 them, in place, with a reading and a writing index.
 */
module ConditionalConcat {

  predicate EndsWith(s: string, g: char) { s != "" && s[|s| - 1] == g }

  predicate StartsWith(s: string, g: char) { s != "" && s[0] == g }

  function Empties(n: nat): (r: seq<string>)
    ensures |r| == n && forall i :: 0 <= i < n ==> r[i] == ""
  {
    seq(n, _ => "")
  }

  /** Number of empty strings at the beginning of v. */
  function LeadingEmpties(v: seq<string>): (n: nat)
    ensures n <= |v| && (forall i :: 0 <= i < n ==> v[i] == "") && (n < |v| ==> v[n] != "")
  {
    if v == [] || v[0] != "" then 0 else 1 + LeadingEmpties(v[1..])
  }

  /** What becomes of `head` and the strings behind it: head and the next non-empty string b are glued together if head
      ends, or b starts, with the glue character, and then empty strings between them vanish; otherwise they stay. */
  function Merge(head: string, rest: seq<string>, g: char): (r: seq<string>)
    ensures r != []
    decreases |rest|
  {
    var n := LeadingEmpties(rest);
    if n == |rest| then
      if EndsWith(head, g) then [head] else [head] + rest
    else
      var b := rest[n];
      if EndsWith(head, g) || StartsWith(b, g) then Merge(head + b, rest[n + 1..], g)
      else [head] + rest[..n] + Merge(b, rest[n + 1..], g)
  }

  function Concat(v: seq<string>, g: char): seq<string>
  {
    if v == [] then [] else Merge(v[0], v[1..], g)
  }

  function Flatten(v: seq<string>): string
  {
    if v == [] then "" else v[0] + Flatten(v[1..])
  }

  /** Only the last string may end, and only the first one may start, with the glue character. */
  predicate NormalForm(v: seq<string>, g: char)
  {
    && (forall i :: 0 <= i < |v| - 1 ==> !EndsWith(v[i], g))
    && (forall i :: 0 < i < |v| ==> !StartsWith(v[i], g))
  }

  // ---------------------------------------------------------------- what Concat means

  lemma {:induction false} FlattenAppend(a: seq<string>, b: seq<string>)
    ensures Flatten(a + b) == Flatten(a) + Flatten(b)
  {
    if a == [] {
      assert a + b == b;
    } else {
      assert (a + b)[1..] == a[1..] + b;
      FlattenAppend(a[1..], b);
    }
  }

  lemma {:induction false} FlattenEmpties(v: seq<string>)
    requires forall i :: 0 <= i < |v| ==> v[i] == ""
    ensures Flatten(v) == ""
  {
    if v != [] { FlattenEmpties(v[1..]); }
  }

  lemma FlattenOne(s: string)
    ensures Flatten([s]) == s
  {
    assert [s][1..] == [];
  }

  lemma First(v: seq<string>)
    requires v != []
    ensures Flatten(v) == v[0] + Flatten(v[1..])
  {
  }

  lemma Parts(rest: seq<string>, n: nat)
    requires n == LeadingEmpties(rest)
    ensures n < |rest| ==> Flatten(rest) == rest[n] + Flatten(rest[n + 1..])
    ensures n == |rest| ==> Flatten(rest) == ""
  {
    hide LeadingEmpties, Flatten;
    FlattenEmpties(rest[..n]);
    if n < |rest| {
      assert rest == rest[..n] + rest[n..];
      FlattenAppend(rest[..n], rest[n..]);
      First(rest[n..]);
      assert rest[n..][1..] == rest[n + 1..];
    } else {
      assert rest[..n] == rest;
    }
  }

  lemma {:induction false} MergeFlatten(head: string, rest: seq<string>, g: char)
    ensures Flatten(Merge(head, rest, g)) == head + Flatten(rest)
    decreases |rest|
  {
    hide LeadingEmpties, EndsWith, StartsWith, Flatten;
    var n := LeadingEmpties(rest);
    Parts(rest, n);
    if n == |rest| {
      FlattenOne(head);
      FlattenAppend([head], rest);
    } else {
      var b, tail := rest[n], rest[n + 1..];
      if EndsWith(head, g) || StartsWith(b, g) {
        MergeFlatten(head + b, tail, g);
        Associative(head, b, Flatten(tail));
      } else {
        MergeFlatten(b, tail, g);
        FlattenBehind(head, rest[..n], Merge(b, tail, g));
      }
    }
  }

  lemma Associative(a: string, b: string, c: string)
    ensures a + b + c == a + (b + c)
  {
  }

  lemma FlattenBehind(head: string, e: seq<string>, r: seq<string>)
    requires forall i :: 0 <= i < |e| ==> e[i] == ""
    ensures Flatten([head] + e + r) == head + Flatten(r)
  {
    hide Flatten;
    FlattenAppend([head] + e, r);
    FlattenAppend([head], e);
    FlattenEmpties(e);
    FlattenOne(head);
  }

  lemma {:induction false} MergeNormal(head: string, rest: seq<string>, g: char)
    ensures var r := Merge(head, rest, g);
            NormalForm(r, g) && |r| <= 1 + |rest| && (StartsWith(r[0], g) ==> StartsWith(head, g) || head == "")
    decreases |rest|
  {
    hide LeadingEmpties;
    var n := LeadingEmpties(rest);
    if n < |rest| {
      var b, tail := rest[n], rest[n + 1..];
      if EndsWith(head, g) || StartsWith(b, g) {
        MergeNormal(head + b, tail, g);
      } else {
        MergeNormal(b, tail, g);
        NotLast(head, rest[..n], Merge(b, tail, g), g);
      }
    }
  }

  lemma NotLast(head: string, e: seq<string>, r: seq<string>, g: char)
    requires !EndsWith(head, g) && (forall i :: 0 <= i < |e| ==> e[i] == "") && r != []
    requires NormalForm(r, g) && !StartsWith(r[0], g)
    ensures NormalForm([head] + e + r, g)
  {
    var v := [head] + e + r;
    forall i | 0 <= i < |v| - 1 ensures !EndsWith(v[i], g) {
      if i >= 1 + |e| { assert v[i] == r[i - 1 - |e|]; }
    }
    forall i | 0 < i < |v| ensures !StartsWith(v[i], g) {
      if i >= 1 + |e| { assert v[i] == r[i - 1 - |e|]; }
    }
  }

  lemma {:induction false} MergeKeepsNormal(v: seq<string>, g: char)
    requires v != [] && NormalForm(v, g)
    ensures Merge(v[0], v[1..], g) == v
    decreases |v|
  {
    hide LeadingEmpties, Merge, EndsWith, StartsWith, Empties;
    var rest := v[1..];
    var n := LeadingEmpties(rest);
    NotGlued(v, g);
    if n < |rest| {
      var tail := v[n + 1..];
      HeadAndRest(v, n);
      NextString(v[0], n, tail, g);
      TailNormal(v, n + 1, g);
      MergeKeepsNormal(tail, g);
    } else {
      AllEmpty(rest);
      LastString(v[0], n, g);
      assert [v[0]] + rest == v;
    }
  }

  lemma HeadAndRest(v: seq<string>, n: nat)
    requires n + 1 < |v| && forall i :: 0 <= i < n ==> v[1..][i] == ""
    ensures v[1..] == Empties(n) + v[n + 1..] && v == [v[0]] + Empties(n) + v[n + 1..]
  {
    assert v[1..][..n] == Empties(n);
  }

  lemma NotGlued(v: seq<string>, g: char)
    requires NormalForm(v, g)
    ensures |v| > 1 ==> !EndsWith(v[0], g)
    ensures forall i :: 0 < i < |v| ==> !StartsWith(v[i], g)
  {
  }

  lemma TailNormal(v: seq<string>, k: nat, g: char)
    requires NormalForm(v, g) && k < |v|
    ensures NormalForm(v[k..], g)
  {
  }

  lemma AllEmpty(v: seq<string>)
    requires forall i :: 0 <= i < |v| ==> v[i] == ""
    ensures v == Empties(|v|)
  {
  }

  /** The concatenation of all strings is preserved, the result is in normal form, and a normal form stays as it is:
      doing it again changes nothing. */
  lemma ConcatLaws(v: seq<string>, g: char)
    ensures Flatten(Concat(v, g)) == Flatten(v)
    ensures NormalForm(Concat(v, g), g) && |Concat(v, g)| <= |v|
    ensures NormalForm(v, g) ==> Concat(v, g) == v
    ensures Concat(Concat(v, g), g) == Concat(v, g)
  {
    hide Merge;
    if v != [] {
      MergeFlatten(v[0], v[1..], g);
      MergeNormal(v[0], v[1..], g);
      if NormalForm(v, g) { MergeKeepsNormal(v, g); }
      MergeKeepsNormal(Concat(v, g), g);
    }
  }

  // ---------------------------------------------------------------- what becomes of empty strings

  lemma {:induction false} LeadingOf(n: nat, rest: seq<string>)
    ensures LeadingEmpties(Empties(n) + rest) == n + LeadingEmpties(rest)
    decreases n
  {
    var v := Empties(n) + rest;
    if n == 0 {
      assert v == rest;
    } else {
      assert v[1..] == Empties(n - 1) + rest;
      LeadingOf(n - 1, rest);
    }
  }

  lemma NextString(head: string, n: nat, rest: seq<string>, g: char)
    requires rest != [] && rest[0] != ""
    ensures Merge(head, Empties(n) + rest, g) ==
            if EndsWith(head, g) || StartsWith(rest[0], g) then Merge(head + rest[0], rest[1..], g)
            else [head] + Empties(n) + Merge(rest[0], rest[1..], g)
  {
    var v := Empties(n) + rest;
    LeadingOf(n, rest);
    assert v[n] == rest[0] && v[n + 1..] == rest[1..] && v[..n] == Empties(n);
  }

  lemma LastString(head: string, n: nat, g: char)
    ensures Merge(head, Empties(n), g) == if EndsWith(head, g) then [head] else [head] + Empties(n)
  {
    LeadingOf(n, []);
    assert Empties(n) + [] == Empties(n);
  }

  /** The last of the strings a behind head, if it is not an empty one among others. */
  predicate Last(head: string, a: seq<string>, last: string)
  {
    if a == [] then last == head else last == a[|a| - 1] != ""
  }

  /** One step of Merge, with something behind. */
  lemma MergeStep(head: string, a: seq<string>, more: seq<string>, g: char)
    requires a != [] && a[|a| - 1] != ""
    ensures var k := LeadingEmpties(a);
            && k < |a| && a[k + 1..] + more == (a + more)[k + 1..]
            && Merge(head, a + more, g) ==
                 if EndsWith(head, g) || StartsWith(a[k], g) then Merge(head + a[k], a[k + 1..] + more, g)
                 else [head] + a[..k] + Merge(a[k], a[k + 1..] + more, g)
  {
    hide LeadingEmpties, Merge, Empties, EndsWith, StartsWith;
    var k := LeadingEmpties(a);
    SplitAt(a, k, more);
    NextString(head, k, a[k..] + more, g);
  }

  lemma MergeAlone(head: string, a: seq<string>, g: char)
    requires a != [] && a[|a| - 1] != ""
    ensures var k := LeadingEmpties(a);
            && k < |a|
            && Merge(head, a, g) ==
                 if EndsWith(head, g) || StartsWith(a[k], g) then Merge(head + a[k], a[k + 1..], g)
                 else [head] + a[..k] + Merge(a[k], a[k + 1..], g)
  {
    hide LeadingEmpties, Merge, EndsWith, StartsWith;
    MergeStep(head, a, [], g);
    assert a + [] == a && a[LeadingEmpties(a) + 1..] + [] == a[LeadingEmpties(a) + 1..];
  }

  lemma Regroup(x: seq<string>, y: seq<string>, z: seq<string>)
    ensures x + (y + z) == x + y + z
  {
  }

  lemma SplitAt(a: seq<string>, k: nat, more: seq<string>)
    requires k < |a| && forall i :: 0 <= i < k ==> a[i] == ""
    ensures a[..k] == Empties(k) && a + more == Empties(k) + (a[k..] + more)
    ensures (a[k..] + more)[0] == a[k] && (a[k..] + more)[1..] == a[k + 1..] + more == (a + more)[k + 1..]
  {
    assert a == a[..k] + a[k..];
  }

  lemma {:induction false} MergeSplits(head: string, a: seq<string>, last: string, n: nat, b: seq<string>, g: char)
    requires Last(head, a, last) && !EndsWith(last, g) && b != [] && b[0] != "" && !StartsWith(b[0], g)
    ensures Merge(head, a + (Empties(n) + b), g) == Merge(head, a, g) + Empties(n) + Merge(b[0], b[1..], g)
    decreases |a|
  {
    hide LeadingEmpties, Merge, EndsWith, StartsWith, Empties;
    var more := Empties(n) + b;
    if a == [] {
      assert a + more == more;
      NextString(head, n, b, g);
      LastString(head, 0, g);
      NoEmpties();
      assert [head] + [] == [head];
    } else {
      var k := LeadingEmpties(a);
      MergeStep(head, a, more, g);
      MergeAlone(head, a, g);
      if EndsWith(head, g) || StartsWith(a[k], g) {
        EndOf(head, a[k], g);
        MergeSplits(head + a[k], a[k + 1..], if k + 1 == |a| then head + a[k] else last, n, b, g);
      } else {
        MergeSplits(a[k], a[k + 1..], last, n, b, g);
        Regroup([head] + a[..k], Merge(a[k], a[k + 1..], g), Empties(n));
        Regroup([head] + a[..k], Merge(a[k], a[k + 1..], g) + Empties(n), Merge(b[0], b[1..], g));
      }
    }
  }

  lemma NoEmpties()
    ensures Empties(0) == []
  {
  }

  lemma StartOf(s: string, t: string, g: char)
    requires s != ""
    ensures StartsWith(s + t, g) == StartsWith(s, g)
  {
  }

  lemma EndOf(s: string, t: string, g: char)
    requires t != ""
    ensures EndsWith(s + t, g) == EndsWith(t, g)
  {
  }

  lemma {:induction false} MergeTrails(head: string, a: seq<string>, last: string, n: nat, g: char)
    requires Last(head, a, last)
    ensures Merge(head, a + Empties(n), g) == Merge(head, a, g) + (if EndsWith(last, g) then [] else Empties(n))
    decreases |a|
  {
    hide LeadingEmpties, Merge, EndsWith, StartsWith, Empties;
    if a == [] {
      assert a + Empties(n) == Empties(n);
      LastString(head, n, g);
      LastString(head, 0, g);
      NoEmpties();
      assert [head] + [] == [head];
    } else {
      var k := LeadingEmpties(a);
      MergeStep(head, a, Empties(n), g);
      MergeAlone(head, a, g);
      if EndsWith(head, g) || StartsWith(a[k], g) {
        EndOf(head, a[k], g);
        MergeTrails(head + a[k], a[k + 1..], if k + 1 == |a| then head + a[k] else last, n, g);
      } else {
        MergeTrails(a[k], a[k + 1..], last, n, g);
        Regroup([head] + a[..k], Merge(a[k], a[k + 1..], g), if EndsWith(last, g) then [] else Empties(n));
      }
    }
  }

  lemma {:induction false} MergeGlues(head: string, a: seq<string>, last: string, n: nat, b: seq<string>, g: char)
    requires a != [] && Last(head, a, last) && b != [] && b[0] != "" && (EndsWith(last, g) || StartsWith(b[0], g))
    ensures Merge(head, a + (Empties(n) + b), g) == Merge(head, a[..|a| - 1] + [last + b[0]] + b[1..], g)
    decreases |a|
  {
    hide LeadingEmpties, Merge, EndsWith, StartsWith, Empties;
    var k := LeadingEmpties(a);
    MergeStep(head, a, Empties(n) + b, g);
    var c := a[..|a| - 1] + [last + b[0]];
    LeadingSame(a, last + b[0]);
    assert c[..k] == a[..k];
    MergeStep(head, c, b[1..], g);
    if k + 1 == |a| {
      // head, possibly glued to the last string, meets b[0]
      NextString(head + a[k], n, b, g);
      NextString(a[k], n, b, g);
      EndOf(head, a[k], g);
      StartOf(last, b[0], g);
      assert a[k + 1..] + (Empties(n) + b) == Empties(n) + b && c[k + 1..] + b[1..] == b[1..];
      assert head + a[k] + b[0] == head + (last + b[0]);
    } else {
      var t := a[k + 1..];
      assert c[k + 1..] == t[..|t| - 1] + [last + b[0]];
      MergeGlues(if EndsWith(head, g) || StartsWith(a[k], g) then head + a[k] else a[k], t, last, n, b, g);
    }
  }

  lemma {:induction false} LeadingSame(a: seq<string>, s: string)
    requires a != [] && a[|a| - 1] != "" && s != ""
    ensures LeadingEmpties(a[..|a| - 1] + [s]) == LeadingEmpties(a)
  {
    if a[0] == "" {
      LeadingSame(a[1..], s);
      assert (a[..|a| - 1] + [s])[1..] == a[1..][..|a| - 2] + [s];
    }
  }

  /** Empty strings between two others, or behind the last one, survive just if no glue character touches them:
      otherwise they vanish, and in the first case their neighbours become one. */
  lemma EmptiesOfConcat(a: seq<string>, n: nat, b: seq<string>, g: char)
    requires a != [] && (|a| > 1 ==> a[|a| - 1] != "")
    ensures var last := a[|a| - 1];
            && Concat(a + Empties(n), g) == Concat(a, g) + (if EndsWith(last, g) then [] else Empties(n))
            && (b != [] && b[0] != "" ==>
                  Concat(a + (Empties(n) + b), g) ==
                    if EndsWith(last, g) || StartsWith(b[0], g) then Concat(a[..|a| - 1] + [last + b[0]] + b[1..], g)
                    else Concat(a, g) + Empties(n) + Concat(b, g))
  {
    hide Merge, EndsWith, StartsWith, Empties;
    var head, t, last, more := a[0], a[1..], a[|a| - 1], Empties(n) + b;
    assert (a + Empties(n))[1..] == t + Empties(n) && (a + more)[1..] == t + more;
    MergeTrails(head, t, last, n, g);
    if b != [] && b[0] != "" {
      if !EndsWith(last, g) && !StartsWith(b[0], g) {
        MergeSplits(head, t, last, n, b, g);
      } else if t == [] {
        NextString(head, n, b, g);
        assert t + more == more && a[..0] + [last + b[0]] + b[1..] == [head + b[0]] + b[1..];
      } else {
        MergeGlues(head, t, last, n, b, g);
        assert (a[..|a| - 1] + [last + b[0]] + b[1..])[1..] == t[..|t| - 1] + [last + b[0]] + b[1..];
      }
    }
  }

  // ---------------------------------------------------------------- steps of the loop

  lemma SkipEmpty(head: string, rest: seq<string>, g: char)
    requires rest != [] && rest[0] == "" && EndsWith(head, g)
    ensures Merge(head, rest, g) == Merge(head, rest[1..], g)
  {
    var n := LeadingEmpties(rest);
    assert n == 1 + LeadingEmpties(rest[1..]);
    if n < |rest| { assert rest[1..][n - 1 + 1..] == rest[n + 1..]; }
  }

  /** Progress of the loop: the strings up to `target` are final, except that more may be glued to the last of them. */
  ghost predicate Inv(now: seq<string>, orig: seq<string>, target: nat, curr: nat, n: nat, concat: bool, g: char)
  {
    && |now| == |orig| && target < curr <= |orig| && n <= curr - target - 1 && now[curr..] == orig[curr..]
    && concat == EndsWith(now[target], g) && (concat ==> n == 0)
    && Concat(orig, g) == now[..target] + Merge(now[target], Empties(n) + orig[curr..], g)
  }

  /** Appends v[curr] to v[target]. */
  method Append(v: array<string>, ghost orig: seq<string>, target: nat, curr: nat, ghost n: nat, ghost concat: bool, g: char)
    returns (concat': bool)
    requires Inv(v[..], orig, target, curr, n, concat, g) && curr < v.Length && v[curr] != ""
    requires concat || StartsWith(v[curr], g)
    modifies v
    ensures Inv(v[..], orig, target, curr + 1, 0, concat', g)
  {
    hide Merge, Concat;
    ghost var now := v[..];
    assert orig[curr] == now[curr] by { assert orig[curr..][0] == now[curr..][0]; }
    NextString(now[target], n, orig[curr..], g);
    assert orig[curr..][1..] == orig[curr + 1..];
    v[target] := v[target] + v[curr];
    assert v[..] == now[target := now[target] + now[curr]];
    assert v[..][curr + 1..] == now[curr..][1..];
    assert Empties(0) + orig[curr + 1..] == orig[curr + 1..];
    concat' := EndsWith(v[target], g);
  }

  /** Moves v[curr] behind v[target] and n preserved empty strings. */
  method Move(v: array<string>, ghost orig: seq<string>, target0: nat, curr: nat, nEmptyStrings: nat, g: char)
    returns (target: nat, concat: bool)
    requires Inv(v[..], orig, target0, curr, nEmptyStrings, false, g) && curr < v.Length && v[curr] != ""
    requires !StartsWith(v[curr], g)
    modifies v
    ensures Inv(v[..], orig, target, curr + 1, 0, concat, g)
  {
    hide Merge, Concat, Empties, StartsWith, EndsWith;
    ghost var now := v[..];
    assert orig[curr] == now[curr] by { assert orig[curr..][0] == now[curr..][0]; }
    NextString(now[target0], nEmptyStrings, orig[curr..], g);
    assert orig[curr..][1..] == orig[curr + 1..];
    NoEmpties();
    assert [] + orig[curr + 1..] == orig[curr + 1..];
    concat := EndsWith(v[curr], g);
    target := MoveBehind(v, target0, curr, nEmptyStrings);
    assert v[..][curr + 1..] == now[curr..][1..];
  }

  /** Moves v[curr] behind n empty strings behind v[target0]. */
  method MoveBehind(v: array<string>, target0: nat, curr: nat, n: nat) returns (target: nat)
    requires target0 + n < curr < v.Length
    modifies v
    ensures target == target0 + n + 1 <= curr && v[target] == old(v[curr])
    ensures v[..][..target] == old(v[..][..target0]) + [old(v[target0])] + Empties(n)
    ensures forall i :: curr < i < v.Length ==> v[i] == old(v[i])
  {
    hide Empties;
    ghost var now := v[..];
    target := ClearBehind(v, target0, n);
    target := target + 1;
    assert v[..][..target] == now[..target0 + 1] + Empties(n) && now[..target0 + 1] == now[..target0] + [now[target0]];
    assert v[curr] == now[curr] && forall i :: curr < i < v.Length ==> v[i] == now[i];
    if target != curr {
      ghost var front := v[..][..target];
      v[target] := v[curr];
      v[curr] := *;  // moved from
      assert v[..][..target] == front;
    }
  }

  /** Clears the n strings behind v[target]. */
  method ClearBehind(v: array<string>, target0: nat, n: nat) returns (target: nat)
    requires target0 + n < v.Length
    modifies v
    ensures target == target0 + n
    ensures v[..] == old(v[..][..target0 + 1]) + Empties(n) + old(v[..][target0 + n + 1..])
  {
    target := target0;
    var nEmptyStrings := n;
    while nEmptyStrings != 0
      invariant 0 <= nEmptyStrings <= n && target == target0 + n - nEmptyStrings
      invariant forall i :: 0 <= i < v.Length ==> v[i] == if target0 < i <= target then "" else old(v[i])
    {
      target := target + 1;
      v[target] := "";
      nEmptyStrings := nEmptyStrings - 1;
    }
  }

  /** ConditionalConcat; the result is v[..size]. */
  method ConditionalConcat(v: array<string>, glueChar: char) returns (size: nat)
    modifies v
    ensures size <= v.Length && v[..size] == Concat(old(v[..]), glueChar)
  {
    hide Merge, EndsWith, StartsWith, Empties;
    if v.Length == 0 { return 0; }
    ghost var orig := v[..];
    var target: nat, curr: nat, nEmptyStrings: nat, concat := 0, 1, 0, EndsWith(v[0], glueChar);
    NoEmpties();
    assert [] + orig[1..] == orig[1..];
    while curr != v.Length
      invariant Inv(v[..], orig, target, curr, nEmptyStrings, concat, glueChar)
      decreases v.Length - curr
    {
      assert v[curr] == v[..][curr..][0] && orig[curr..][1..] == orig[curr + 1..];
      if v[curr] == "" {
        assert v[..][curr + 1..] == v[..][curr..][1..];
        NoStart(glueChar);
        if concat {
          SkipEmpty(v[target], orig[curr..], glueChar);
          NoEmpties();
          assert [] + orig[curr..] == orig[curr..] && [] + orig[curr + 1..] == orig[curr + 1..];
        } else {
          OneMoreEmpty(nEmptyStrings, orig[curr..]);
          nEmptyStrings := nEmptyStrings + 1;
        }
      } else if concat || StartsWith(v[curr], glueChar) {
        concat := Append(v, orig, target, curr, nEmptyStrings, concat, glueChar);
        nEmptyStrings := 0;
      } else {
        target, concat := Move(v, orig, target, curr, nEmptyStrings, glueChar);
        nEmptyStrings := 0;
      }
      curr := curr + 1;
    }
    // empty strings at the end stay
    ghost var now := v[..];
    LastString(now[target], nEmptyStrings, glueChar);
    assert orig[curr..] == [] && Empties(nEmptyStrings) + [] == Empties(nEmptyStrings);
    size := Finish(v, target, nEmptyStrings);
  }

  /** Clears the n strings behind v[target]; the result is all of them. */
  method Finish(v: array<string>, target: nat, n: nat) returns (size: nat)
    requires target + n < v.Length
    modifies v
    ensures size == target + 1 + n && v[..size] == old(v[..][..target]) + [old(v[target])] + Empties(n)
  {
    hide Empties;
    ghost var now := v[..];
    var last := ClearBehind(v, target, n);
    size := last + 1;
    assert v[..size] == now[..target + 1] + Empties(n) && now[..target + 1] == now[..target] + [now[target]];
  }

  lemma OneMoreEmpty(n: nat, rest: seq<string>)
    requires rest != [] && rest[0] == ""
    ensures Empties(n) + rest == Empties(n + 1) + rest[1..]
  {
    assert Empties(n + 1) == Empties(n) + [""];
    assert rest == [""] + rest[1..];
  }

  lemma NoStart(g: char)
    ensures !StartsWith("", g)
  {
  }
}
