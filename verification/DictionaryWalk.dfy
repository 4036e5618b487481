/**
 Enumeration of a dictionary: from the first object on, increments of one pointer visit every object once, by index.
 */
module DictionaryWalk {
  import opened ObjectDictionaries
  import opened DictionaryRuns

  /** The indices from k on, as they are visited. */
  function Walk(keys: set<nat>, k: nat): (r: seq<nat>)
    decreases MAX_INDEX + 1 - k
  {
    match LowerBound(keys, k)
    case End => []
    case Key(i) => if k <= i <= MAX_INDEX then [i] + Walk(keys, i + 1) else []
  }

  /** All of them, in increasing order. */
  lemma {:induction false} WalkIs(keys: set<nat>, k: nat)
    requires forall i :: i in keys ==> i <= MAX_INDEX
    ensures forall i :: i in Walk(keys, k) <==> i in keys && i >= k
    ensures forall i, j :: 0 <= i < j < |Walk(keys, k)| ==> Walk(keys, k)[i] < Walk(keys, k)[j]
    decreases MAX_INDEX + 1 - k
  {
    hide LowerBound;
    LowerBoundIs(keys, k);
    match LowerBound(keys, k)
    case End =>
    case Key(i) =>
      WalkIs(keys, i + 1);
      var rest := Walk(keys, i + 1);
      forall x ensures x in Walk(keys, k) <==> x in keys && x >= k { assert x in Walk(keys, k) <==> x == i || x in rest; }
      forall a, b | 0 <= a < b < |Walk(keys, k)| ensures Walk(keys, k)[a] < Walk(keys, k)[b] {
        assert Walk(keys, k)[b] == rest[b - 1];
        assert rest[b - 1] in rest;
        if a > 0 { assert Walk(keys, k)[a] == rest[a - 1]; }
      }
  }

  /** The position behind the n-th one. */
  lemma {:induction false} WalkStep(keys: set<nat>, k: nat, n: nat)
    requires (forall i :: i in keys ==> i <= MAX_INDEX) && n < |Walk(keys, k)|
    ensures UpperBound(keys, Walk(keys, k)[n]) == if n + 1 < |Walk(keys, k)| then Key(Walk(keys, k)[n + 1]) else End
    decreases n
  {
    hide LowerBound;
    LowerBoundIs(keys, k);
    var i := LowerBound(keys, k).index;
    LowerBoundIs(keys, i + 1);
    if n > 0 { WalkStep(keys, i + 1, n - 1); }
  }

  /** Looking up the first object, and n increments of the pointer. */
  function Visit(p: ObjectPtr, d: ObjectDictionary, n: nat): (ops: seq<Op>)
    ensures |ops| == n + 2
  {
    [OpLock(d), OpFinish(p, d, First)] + seq(n, _ => OpNext(p))
  }

  ghost predicate Possible(w: Setting, ops: seq<Op>)
  {
    Sound(w) && forall i :: 0 <= i < |ops| ==> Among(ops[i], w.dicts.Keys, w.ptrs.Keys)
  }

  /** Where the pointer stands after the n-th object. */
  function Place(d: ObjectDictionary, walk: seq<nat>, n: nat): PtrValue
  {
    if n < |walk| then To(d, Key(walk[n])) else Nothing
  }

  /** With no writer waiting, all of this succeeds, and the pointer visits the objects one after the other. */
  lemma {:induction false} Visits(w: Setting, p: ObjectPtr, d: ObjectDictionary, n: nat)
    requires Sound(w) && p in w.ptrs && d in w.dicts && n <= |Walk(w.dicts[d].keys, 0)|
    requires w.dicts[d].nbOfBlockedWriters == 0 && Locks(w, d) + 1 < INT32_MAX
    ensures Possible(w, Visit(p, d, n))
    ensures var (u, outcomes) := Effects(w, Visit(p, d, n));
            && p in u.ptrs && u.ptrs[p] == Place(d, Walk(w.dicts[d].keys, 0), n)
            && d in u.dicts && u.dicts[d] == w.dicts[d] && forall i :: 0 <= i < |outcomes| ==> outcomes[i] == Done
    decreases n
  {
    hide Effects, Effect, Sound, Walk, Locks;
    Allowed(w, p, d, n);
    if n == 0 {
      Begin(w, p, d);
      assert Visit(p, d, 0) == [OpLock(d), OpFinish(p, d, First)];
    } else {
      Visits(w, p, d, n - 1);
      assert Visit(p, d, n)[..n + 1] == Visit(p, d, n - 1) && Visit(p, d, n)[n + 1] == OpNext(p);
      LastEffect(w, Visit(p, d, n));
      var u := Effects(w, Visit(p, d, n - 1)).0;
      Onward(u, p, d, w.dicts[d].keys, n - 1);
    }
  }

  lemma Allowed(w: Setting, p: ObjectPtr, d: ObjectDictionary, n: nat)
    requires Sound(w) && p in w.ptrs && d in w.dicts
    ensures Possible(w, Visit(p, d, n))
  {
    hide Sound;
  }

  lemma LastEffect(w: Setting, ops: seq<Op>)
    requires Possible(w, ops) && ops != []
    ensures var n := |ops| - 1;
            && Possible(w, ops[..n])
            && var u := Effects(w, ops[..n]);
               && Sound(u.0) && Among(ops[n], u.0.dicts.Keys, u.0.ptrs.Keys)
               && var e := Effect(u.0, ops[n]);
                  Effects(w, ops) == (e.0, u.1 + [e.1])
  {
    hide Effect, Sound, Among;
  }

  lemma Onward(u: Setting, p: ObjectPtr, d: ObjectDictionary, keys: set<nat>, n: nat)
    requires Sound(u) && p in u.ptrs && d in u.dicts && u.dicts[d].keys == keys && n < |Walk(keys, 0)|
    requires u.ptrs[p] == Place(d, Walk(keys, 0), n)
    ensures Effect(u, OpNext(p)) == (SetPtr(u, p, Place(d, Walk(keys, 0), n + 1)), Done)
  {
    hide Walk, LowerBound;
    WalkStep(keys, 0, n);
  }

  lemma Begin(w: Setting, p: ObjectPtr, d: ObjectDictionary)
    requires Sound(w) && p in w.ptrs && d in w.dicts
    requires w.dicts[d].nbOfBlockedWriters == 0 && Locks(w, d) + 1 < INT32_MAX
    ensures Possible(w, [OpLock(d), OpFinish(p, d, First)])
    ensures Effects(w, [OpLock(d), OpFinish(p, d, First)]) ==
            (SetPtr(w, p, Place(d, Walk(w.dicts[d].keys, 0), 0)), [Done, Done])
  {
    hide Effect, Sound, Effects, Locks, LowerBound, Walk;
    var ops := [OpLock(d), OpFinish(p, d, First)];
    var u := SetDict(w, d, w.dicts[d].(others := w.dicts[d].others + 1));
    assert ops[..1] == [OpLock(d)] && ops[..1][..0] == [];
    LastEffect(w, ops);
    LastEffect(w, ops[..1]);
    NoEffects(w);
    Taken(w, p, d);
    assert Effects(w, ops[..1]) == (u, [Done]) by { assert [] + [Done] == [Done]; }
    assert [Done] + [Done] == [Done, Done];
  }

  lemma NoEffects(w: Setting)
    requires Possible(w, [])
    ensures Effects(w, []) == (w, [])
  {
  }

  /** The two steps of the look-up. */
  lemma Taken(w: Setting, p: ObjectPtr, d: ObjectDictionary)
    requires Sound(w) && p in w.ptrs && d in w.dicts
    requires w.dicts[d].nbOfBlockedWriters == 0 && Locks(w, d) + 1 < INT32_MAX
    ensures var u := SetDict(w, d, w.dicts[d].(others := w.dicts[d].others + 1));
            && Effect(w, OpLock(d)) == (u, Done)
            && Sound(u) && d in u.dicts && p in u.ptrs
            && Effect(u, OpFinish(p, d, First)) == (SetPtr(w, p, Place(d, Walk(w.dicts[d].keys, 0), 0)), Done)
  {
    hide LowerBound, Sound;
    var v := w.dicts[d];
    var u := SetDict(w, d, v.(others := v.others + 1));
    SetDictSound(w, d, v.(others := v.others + 1));
    assert Inside(u, d) == Inside(w, d);
    assert SetDict(u, d, v) == w by { assert w.dicts[d := v.(others := v.others + 1)][d := v] == w.dicts; }
    LookupIs(v.keys, First) by { KeysInRange(w, d); }
  }

  lemma KeysInRange(w: Setting, d: ObjectDictionary)
    requires Sound(w) && d in w.dicts
    ensures forall i :: i in w.dicts[d].keys ==> i <= MAX_INDEX
  {
  }

  /** The visited objects are all there are, by index, and behind the last one the pointer points to nothing. */
  lemma VisitsAll(w: Setting, p: ObjectPtr, d: ObjectDictionary)
    requires Sound(w) && p in w.ptrs && d in w.dicts
    requires w.dicts[d].nbOfBlockedWriters == 0 && Locks(w, d) + 1 < INT32_MAX
    ensures var walk := Walk(w.dicts[d].keys, 0);
            && (forall i :: i in walk <==> i in w.dicts[d].keys)
            && (forall i, j :: 0 <= i < j < |walk| ==> walk[i] < walk[j])
            && (forall n :: 0 <= n <= |walk| ==>
                  && Possible(w, Visit(p, d, n)) && p in Effects(w, Visit(p, d, n)).0.ptrs
                  && Effects(w, Visit(p, d, n)).0.ptrs[p] == if n < |walk| then To(d, Key(walk[n])) else Nothing)
  {
    hide Sound, Effects, Visit, Walk, Locks;
    KeysInRange(w, d);
    WalkIs(w.dicts[d].keys, 0);
    forall n: nat | n <= |Walk(w.dicts[d].keys, 0)|
      ensures Possible(w, Visit(p, d, n)) && p in Effects(w, Visit(p, d, n)).0.ptrs
      ensures Effects(w, Visit(p, d, n)).0.ptrs[p] == Place(d, Walk(w.dicts[d].keys, 0), n)
    {
      Visits(w, p, d, n);
    }
  }
}
