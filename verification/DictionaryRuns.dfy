/**
 Any run of operations on some dictionaries and some smart pointers does what it would do in a world without reference
 counters, in which the read-locks of a dictionary are just the pointers into it and the other read-locks.
 */
module DictionaryRuns {
  import opened ObjectDictionaries

  // ---------------------------------------------------------------- the world without counters

  datatype DictValue = DictValue(nbOfBlockedWriters: nat, others: nat, keys: set<nat>)

  datatype PtrValue = Nothing | To(od: ObjectDictionary?, it: Iterator)

  datatype Setting = Setting(dicts: map<ObjectDictionary, DictValue>, ptrs: map<ObjectPtr, PtrValue>)

  /** Pointers refer to registered objects. */
  ghost predicate Sound(w: Setting)
  {
    && (forall d, i :: d in w.dicts && i in w.dicts[d].keys ==> i <= MAX_INDEX)
    && forall p :: p in w.ptrs ==> Refers(w, w.ptrs[p])
  }

  ghost predicate Refers(w: Setting, v: PtrValue)
  {
    v.To? ==> v.od in w.dicts && v.it.Key? && v.it.index in w.dicts[v.od].keys
  }

  ghost function Inside(w: Setting, d: ObjectDictionary): set<ObjectPtr>
  {
    set p | p in w.ptrs && w.ptrs[p].To? && w.ptrs[p].od == d
  }

  ghost function Locks(w: Setting, d: ObjectDictionary): nat
    requires d in w.dicts
  {
    |Inside(w, d)| + w.dicts[d].others
  }

  ghost function SetPtr(w: Setting, p: ObjectPtr, v: PtrValue): Setting { w.(ptrs := w.ptrs[p := v]) }

  ghost function SetDict(w: Setting, d: ObjectDictionary, v: DictValue): Setting { w.(dicts := w.dicts[d := v]) }

  datatype Change = Add(index: nat) | Remove(index: nat) | Clear

  datatype Op =
    | OpCopy(p: ObjectPtr, q: ObjectPtr)
    | OpMove(p: ObjectPtr, q: ObjectPtr)
    | OpNext(p: ObjectPtr)
    | OpReset(p: ObjectPtr)        // also the end of the life of p
    | OpLock(d: ObjectDictionary)  // also the first step of a look-up
    | OpUnlock(d: ObjectDictionary)
    | OpFinish(p: ObjectPtr, d: ObjectDictionary, query: Query)  // the second step, and moving the result to p
    | OpChange(d: ObjectDictionary, change: Change, waiting: bool)

  predicate Among(op: Op, dicts: set<ObjectDictionary>, ptrs: set<ObjectPtr>)
  {
    match op
    case OpCopy(p, q) => p in ptrs && q in ptrs
    case OpMove(p, q) => p in ptrs && q in ptrs
    case OpNext(p) => p in ptrs
    case OpReset(p) => p in ptrs
    case OpLock(d) => d in dicts
    case OpUnlock(d) => d in dicts
    case OpFinish(p, d, query) => p in ptrs && d in dicts && (query.First? || query.index <= MAX_INDEX)
    case OpChange(d, change, _) => d in dicts && (change.Add? ==> change.index <= MAX_INDEX)
  }

  function Position(d: ObjectDictionary, it: Iterator): PtrValue { if it == End then Nothing else To(d, it) }

  /** Whether a further pointer into d is granted. */
  ghost function GrantedAt(w: Setting, d: ObjectDictionary): Outcome
    requires d in w.dicts
  {
    Granted(Locks(w, d), w.dicts[d].nbOfBlockedWriters)
  }

  /** Only a pointer into another dictionary, or into none, needs a further lock. */
  ghost function CopyEffect(w: Setting, p: ObjectPtr, q: ObjectPtr): (Setting, Outcome)
    requires Sound(w) && p in w.ptrs && q in w.ptrs
  {
    var v := w.ptrs[q];
    if v.To? && !(w.ptrs[p].To? && w.ptrs[p].od == v.od) && GrantedAt(w, v.od) != Done then (w, GrantedAt(w, v.od))
    else (SetPtr(w, p, v), Done)
  }

  ghost function NextEffect(w: Setting, p: ObjectPtr): (Setting, Outcome)
    requires Sound(w) && p in w.ptrs
  {
    match w.ptrs[p]
    case Nothing => (w, LogicError)
    case To(d, it) => (SetPtr(w, p, Position(d, UpperBound(w.dicts[d].keys, it.index))), Done)
  }

  ghost function LockEffect(w: Setting, d: ObjectDictionary): (Setting, Outcome)
    requires d in w.dicts
  {
    var v := w.dicts[d];
    if v.nbOfBlockedWriters != 0 then (w, Waiting)
    else if Locks(w, d) == INT32_MAX then (w, RuntimeError)
    else (SetDict(w, d, v.(others := v.others + 1)), Done)
  }

  /** A second step without a first one is none. */
  ghost function FinishEffect(w: Setting, p: ObjectPtr, d: ObjectDictionary, query: Query): (Setting, Outcome)
    requires p in w.ptrs && d in w.dicts
  {
    var v := w.dicts[d];
    if v.others == 0 then (w, Done)
    else
      var it := Lookup(v.keys, query);
      var u := SetDict(w, d, v.(others := v.others - 1));
      if it.Key? && GrantedAt(w, d) != Done then (u, GrantedAt(w, d)) else (SetPtr(u, p, Position(d, it)), Done)
  }

  function Changed(keys: set<nat>, change: Change): set<nat>
  {
    match change
    case Add(index) => keys + {index}
    case Remove(index) => keys - {index}
    case Clear => {}
  }

  /** A change needs the write-lock; `waiting` if the thread has been blocked before. */
  function ChangeDict(v: DictValue, nbOfLocks: int, change: Change, waiting: bool): (DictValue, Outcome)
  {
    var (g, blocked) := WriteGranted(nbOfLocks, v.nbOfBlockedWriters, waiting && v.nbOfBlockedWriters > 0);
    ( v.(nbOfBlockedWriters := blocked, keys := if g == Done then Changed(v.keys, change) else v.keys),
      if g == Done && change.Add? && change.index in v.keys then LogicError else g)
  }

  ghost function ChangeEffect(w: Setting, d: ObjectDictionary, change: Change, waiting: bool): (Setting, Outcome)
    requires d in w.dicts
  {
    var (v, r) := ChangeDict(w.dicts[d], Locks(w, d), change, waiting);
    (SetDict(w, d, v), r)
  }

  ghost function Effect(w: Setting, op: Op): (r: (Setting, Outcome))
    requires Sound(w) && Among(op, w.dicts.Keys, w.ptrs.Keys)
  {
    match op
    case OpCopy(p, q) => CopyEffect(w, p, q)
    case OpMove(p, q) => (if p == q then w else SetPtr(SetPtr(w, p, w.ptrs[q]), q, Nothing), Done)
    case OpNext(p) => NextEffect(w, p)
    case OpReset(p) => (SetPtr(w, p, Nothing), Done)
    case OpLock(d) => LockEffect(w, d)
    case OpUnlock(d) =>
      var v := w.dicts[d];
      (if v.others == 0 then w else SetDict(w, d, v.(others := v.others - 1)), Done)
    case OpFinish(p, d, query) => FinishEffect(w, p, d, query)
    case OpChange(d, change, waiting) => ChangeEffect(w, d, change, waiting)
  }

  // ---------------------------------------------------------------- what a run keeps

  /** While somebody holds a lock, the container is not changed. */
  lemma LockedKeys(w: Setting, d: ObjectDictionary, change: Change, waiting: bool)
    requires d in w.dicts && Locks(w, d) != 0
    ensures ChangeEffect(w, d, change, waiting).0.dicts[d].keys == w.dicts[d].keys
  {
  }

  lemma OneInside(w: Setting, p: ObjectPtr)
    requires Sound(w) && p in w.ptrs && w.ptrs[p].To?
    ensures Locks(w, w.ptrs[p].od) != 0
  {
    assert p in Inside(w, w.ptrs[p].od);
  }

  lemma ChangeSound(w: Setting, d: ObjectDictionary, change: Change, waiting: bool)
    requires Sound(w) && d in w.dicts && (change.Add? ==> change.index <= MAX_INDEX)
    ensures var u := ChangeEffect(w, d, change, waiting).0;
            Sound(u) && u.dicts.Keys == w.dicts.Keys && u.ptrs.Keys == w.ptrs.Keys
  {
    hide WriteGranted;
    if Locks(w, d) != 0 {
      LockedKeys(w, d, change, waiting);
    } else {
      forall p | p in w.ptrs && w.ptrs[p].To? ensures w.ptrs[p].od != d { OneInside(w, p); }
    }
  }

  lemma SetPtrSound(w: Setting, p: ObjectPtr, v: PtrValue)
    requires Sound(w) && p in w.ptrs && Refers(w, v)
    ensures Sound(SetPtr(w, p, v)) && SetPtr(w, p, v).ptrs.Keys == w.ptrs.Keys
    ensures forall u :: Refers(w, u) ==> Refers(SetPtr(w, p, v), u)
  {
    assert w.ptrs[p := v].Keys == w.ptrs.Keys;
  }

  lemma SetDictSound(w: Setting, d: ObjectDictionary, v: DictValue)
    requires Sound(w) && d in w.dicts && v.keys == w.dicts[d].keys
    ensures Sound(SetDict(w, d, v)) && SetDict(w, d, v).dicts.Keys == w.dicts.Keys
    ensures forall u :: Refers(w, u) ==> Refers(SetDict(w, d, v), u)
  {
    assert w.dicts[d := v].Keys == w.dicts.Keys;
  }

  lemma PtrSound(w: Setting, p: ObjectPtr)
    requires Sound(w) && p in w.ptrs
    ensures Refers(w, w.ptrs[p]) && Refers(w, Nothing)
  {
  }

  lemma NextSound(w: Setting, p: ObjectPtr)
    requires Sound(w) && p in w.ptrs
    ensures var u := NextEffect(w, p).0; Sound(u) && u.dicts.Keys == w.dicts.Keys && u.ptrs.Keys == w.ptrs.Keys
  {
    hide LowerBound;
    if w.ptrs[p].To? {
      var v := w.ptrs[p];
      LowerBoundIs(w.dicts[v.od].keys, v.it.index + 1);
      SetPtrSound(w, p, Position(v.od, UpperBound(w.dicts[v.od].keys, v.it.index)));
    }
  }

  lemma LookupSound(w: Setting, d: ObjectDictionary, query: Query)
    requires Sound(w) && d in w.dicts
    ensures Refers(w, Position(d, Lookup(w.dicts[d].keys, query)))
  {
    hide Lookup;
    LookupIs(w.dicts[d].keys, query);
  }

  /** No operation leaves a pointer to an object that is no longer registered. */
  lemma EffectSound(w: Setting, op: Op)
    requires Sound(w) && Among(op, w.dicts.Keys, w.ptrs.Keys)
    ensures var u := Effect(w, op).0; Sound(u) && u.dicts.Keys == w.dicts.Keys && u.ptrs.Keys == w.ptrs.Keys
  {
    hide LowerBound, Lookup, Locks, GrantedAt, Sound, Refers, NextEffect, ChangeEffect;
    match op
    case OpCopy(p, q) =>
      PtrSound(w, q);
      SetPtrSound(w, p, w.ptrs[q]);
    case OpMove(p, q) =>
      PtrSound(w, q);
      SetPtrSound(w, p, w.ptrs[q]);
      SetPtrSound(SetPtr(w, p, w.ptrs[q]), q, Nothing);
    case OpNext(p) =>
      NextSound(w, p);
    case OpReset(p) =>
      PtrSound(w, p);
      SetPtrSound(w, p, Nothing);
    case OpLock(d) => SetDictSound(w, d, w.dicts[d].(others := w.dicts[d].others + 1));
    case OpUnlock(d) =>
      if w.dicts[d].others > 0 { SetDictSound(w, d, w.dicts[d].(others := w.dicts[d].others - 1)); }
    case OpFinish(p, d, query) =>
      if w.dicts[d].others > 0 {
        var u := SetDict(w, d, w.dicts[d].(others := w.dicts[d].others - 1));
        SetDictSound(w, d, u.dicts[d]);
        LookupSound(u, d, query);
        SetPtrSound(u, p, Position(d, Lookup(w.dicts[d].keys, query)));
      }
    case OpChange(d, change, waiting) => ChangeSound(w, d, change, waiting);
  }

  /** The operations one after the other, with their outcomes. */
  ghost function Effects(w: Setting, ops: seq<Op>): (r: (Setting, seq<Outcome>))
    requires Sound(w) && forall i :: 0 <= i < |ops| ==> Among(ops[i], w.dicts.Keys, w.ptrs.Keys)
    ensures Sound(r.0) && r.0.dicts.Keys == w.dicts.Keys && r.0.ptrs.Keys == w.ptrs.Keys && |r.1| == |ops|
  {
    if ops == [] then (w, []) else
      var n := |ops| - 1;
      var u := Effects(w, ops[..n]);
      EffectSound(u.0, ops[n]);
      var e := Effect(u.0, ops[n]);
      (e.0, u.1 + [e.1])
  }

  lemma EffectKeepsKeys(w: Setting, op: Op, d: ObjectDictionary)
    requires Sound(w) && Among(op, w.dicts.Keys, w.ptrs.Keys) && d in w.dicts && Locks(w, d) != 0
    ensures d in Effect(w, op).0.dicts && Effect(w, op).0.dicts[d].keys == w.dicts[d].keys
  {
    hide LowerBound, Lookup, WriteGranted, Locks, GrantedAt;
    if op.OpChange? && op.d == d { LockedKeys(w, d, op.change, op.waiting); }
  }

  /** As long as there is a pointer into d, or another read-lock, nobody can register or remove objects there. */
  lemma {:induction false} LocksKeepDictionary(w: Setting, ops: seq<Op>, d: ObjectDictionary)
    requires Sound(w) && d in w.dicts && (forall i :: 0 <= i < |ops| ==> Among(ops[i], w.dicts.Keys, w.ptrs.Keys))
    requires forall i :: 0 <= i < |ops| ==> Locks(Effects(w, ops[..i]).0, d) != 0
    ensures Effects(w, ops).0.dicts[d].keys == w.dicts[d].keys
  {
    hide Effect, Sound, Locks;
    if ops != [] {
      var n := |ops| - 1;
      forall i | 0 <= i < n ensures Locks(Effects(w, ops[..n][..i]).0, d) != 0 { assert ops[..n][..i] == ops[..i]; }
      LocksKeepDictionary(w, ops[..n], d);
      EffectKeepsKeys(Effects(w, ops[..n]).0, ops[n], d);
    }
  }

  // ---------------------------------------------------------------- the objects of the program

  /** The objects registered somewhere. */
  ghost function Objects(dicts: set<ObjectDictionary>): set<CodObject>
    reads dicts
  {
    set d, i | d in dicts && i in d.container :: d.container[i]
  }

  /** All dictionaries are consistent, all pointers hold their lock, and nobody else holds one through a pointer. */
  ghost predicate World(dicts: set<ObjectDictionary>, ptrs: set<ObjectPtr>)
    reads dicts, ptrs, Objects(dicts), set d, p | d in dicts && p in d.holders :: p
  {
    && (forall d :: d in dicts ==> d.Valid() && d.holders <= ptrs)
    && (forall p :: p in ptrs && !p.pointsToNothing ==> p.od in dicts && p.Valid())
  }

  ghost function DictOf(d: ObjectDictionary): DictValue
    reads d
  {
    DictValue(d.nbOfBlockedWriters, d.others, d.container.Keys)
  }

  ghost function PtrOf(p: ObjectPtr): PtrValue
    reads p
  {
    if p.pointsToNothing then Nothing else To(p.od, p.it)
  }

  /** What is there, without the counters. */
  ghost function Value(dicts: set<ObjectDictionary>, ptrs: set<ObjectPtr>): (w: Setting)
    reads dicts, ptrs
    ensures w.dicts.Keys == dicts && w.ptrs.Keys == ptrs
  {
    Setting(map d | d in dicts :: DictOf(d), map p | p in ptrs :: PtrOf(p))
  }

  /** Conservation: the counter of a dictionary is the number of pointers into it plus the other read-locks. */
  lemma LocksAreHeld(dicts: set<ObjectDictionary>, ptrs: set<ObjectPtr>, d: ObjectDictionary)
    requires World(dicts, ptrs) && d in dicts
    ensures d.nbOfLocks == Locks(Value(dicts, ptrs), d) && d.holders == Inside(Value(dicts, ptrs), d)
    ensures forall p :: p in Inside(Value(dicts, ptrs), d) ==>
              p.it.Key? && p.it.index in d.container && d.container[p.it.index].pOD == d && !d.container[p.it.index].deleted
  {
    var w := Value(dicts, ptrs);
    assert Inside(w, d) == d.holders by {
      forall p | p in d.holders ensures p in Inside(w, d) { assert d.Refers(p); }
      forall p | p in Inside(w, d) ensures p in d.holders { assert PtrOf(p).To?; }
    }
    forall p | p in Inside(w, d)
      ensures p.it.Key? && p.it.index in d.container && d.container[p.it.index].pOD == d && !d.container[p.it.index].deleted
    {
      assert d.Refers(p);
    }
  }

  /** While a pointer into d exists, d cannot be changed. */
  lemma PointerBlocksWriters(dicts: set<ObjectDictionary>, ptrs: set<ObjectPtr>, p: ObjectPtr)
    requires World(dicts, ptrs) && p in ptrs && !p.pointsToNothing
    ensures p.od.nbOfLocks > 0
  {
    OneLess(p.od.holders, p);
  }

  /** So every operation on a consistent world has an effect. */
  lemma ValueSound(dicts: set<ObjectDictionary>, ptrs: set<ObjectPtr>)
    requires World(dicts, ptrs)
    ensures Sound(Value(dicts, ptrs))
  {
    hide Count;
    forall p | p in ptrs && !p.pointsToNothing ensures p.it.Key? && p.it.index in p.od.container { assert p.od.Refers(p); }
  }

  /** For d, at most the places of the pointers in `moved` have changed. */
  ghost predicate Kept(d: ObjectDictionary, moved: set<ObjectPtr>, before: Setting)
    reads moved, d, d.container.Values, d.holders
  {
    && d in before.dicts && d.Valid() && DictOf(d) == before.dicts[d] && d.holders - moved == Inside(before, d) - moved
    && forall p :: p in moved ==> (p in d.holders <==> p.Inside(d))
  }

  ghost predicate Still(d: ObjectDictionary, before: Setting)
    reads d, d.container.Values, d.holders
  {
    d in before.dicts && d.Valid() && DictOf(d) == before.dicts[d] && d.holders == Inside(before, d)
  }

  lemma StillKept(d: ObjectDictionary, moved: set<ObjectPtr>, before: Setting)
    requires Still(d, before) && forall p :: p in moved ==> p !in Inside(before, d) && !p.Inside(d)
    ensures Kept(d, moved, before)
  {
  }

  lemma MovedKept(p: ObjectPtr, d: ObjectDictionary, holders: set<ObjectPtr>, state: DictState, was: bool, before: Setting)
    requires p.Moved(d, holders, state, was) && holders - {p} == Inside(before, d) - {p} && d in before.dicts
    requires before.dicts[d] == DictValue(state.nbOfBlockedWriters, state.others, state.container.Keys)
    ensures Kept(d, {p}, before) && d.container == state.container
  {
  }

  /** When only some pointers have moved, between dictionaries or inside of one. */
  lemma OnlyMoved(moved: set<ObjectPtr>, before: Setting, dicts: set<ObjectDictionary>, ptrs: set<ObjectPtr>)
    requires Sound(before) && before.dicts.Keys == dicts && before.ptrs.Keys == ptrs && moved <= ptrs
    requires forall p :: p in moved ==> p.Valid() && (!p.pointsToNothing ==> p.od in dicts)
    requires forall d :: d in dicts ==> Kept(d, moved, before)
    requires forall q :: q in ptrs && q !in moved ==> PtrOf(q) == before.ptrs[q]
    ensures World(dicts, ptrs) && Value(dicts, ptrs).dicts == before.dicts && Value(dicts, ptrs).ptrs.Keys == ptrs
    ensures forall q :: q in ptrs ==> Value(dicts, ptrs).ptrs[q] == if q in moved then PtrOf(q) else before.ptrs[q]
  {
    hide Count, ObjectDictionary.Valid;
    forall q | q in ptrs && !q.pointsToNothing && q !in moved ensures q.od in dicts && q.Valid() {
      assert PtrOf(q) == To(q.od, q.it);
      assert q in Inside(before, q.od) - moved;
    }
    forall d | d in dicts ensures d.holders <= ptrs {
      forall q | q in d.holders ensures q in ptrs {
        if q !in moved { assert q in d.holders - moved; }
      }
    }
  }

  lemma OneMoved(p: ObjectPtr, before: Setting, dicts: set<ObjectDictionary>, ptrs: set<ObjectPtr>)
    requires Sound(before) && before.dicts.Keys == dicts && before.ptrs.Keys == ptrs && p in ptrs
    requires p.Valid() && (!p.pointsToNothing ==> p.od in dicts)
    requires forall d :: d in dicts ==> Kept(d, {p}, before)
    requires forall q :: q in ptrs && q != p ==> PtrOf(q) == before.ptrs[q]
    ensures World(dicts, ptrs) && Value(dicts, ptrs) == SetPtr(before, p, PtrOf(p))
  {
    hide Kept, World, Sound, Inside, ObjectPtr.Valid;
    OnlyMoved({p}, before, dicts, ptrs);
    hide Value, PtrOf;
    assert Value(dicts, ptrs).ptrs == before.ptrs[p := PtrOf(p)];
  }

  lemma Ready(dicts: set<ObjectDictionary>, ptrs: set<ObjectPtr>)
    requires World(dicts, ptrs)
    ensures Value(dicts, ptrs).dicts.Keys == dicts
    ensures forall d :: d in dicts ==> Still(d, Value(dicts, ptrs)) && d.nbOfLocks == Locks(Value(dicts, ptrs), d)
  {
    hide Count, Locks, World, Still, Inside;
    forall d | d in dicts ensures Still(d, Value(dicts, ptrs)) && d.nbOfLocks == Locks(Value(dicts, ptrs), d) {
      LocksAreHeld(dicts, ptrs, d);
      DictReady(d, dicts, ptrs);
    }
  }

  lemma DictReady(d: ObjectDictionary, dicts: set<ObjectDictionary>, ptrs: set<ObjectPtr>)
    requires World(dicts, ptrs) && d in dicts
    ensures d.Valid() && d.holders == Inside(Value(dicts, ptrs), d) && Still(d, Value(dicts, ptrs))
  {
    LocksAreHeld(dicts, ptrs, d);
  }

  lemma PtrReady(p: ObjectPtr, dicts: set<ObjectDictionary>, ptrs: set<ObjectPtr>)
    requires World(dicts, ptrs) && p in ptrs
    ensures p.Valid() && (!p.pointsToNothing ==> p.od in dicts && p.od.Valid())
    ensures var w := Value(dicts, ptrs);
            !p.pointsToNothing ==>
              && p.od.holders == Inside(w, p.od)
              && w.dicts[p.od] == DictValue(p.od.nbOfBlockedWriters, p.od.others, p.od.container.Keys)
    ensures Value(dicts, ptrs).ptrs[p] == PtrOf(p)
    ensures forall d :: d in dicts && p in d.holders ==> p.Inside(d)
    ensures forall d :: p in Inside(Value(dicts, ptrs), d) <==> p.Inside(d)
  {
    if !p.pointsToNothing { LocksAreHeld(dicts, ptrs, p.od); }
    forall d | d in dicts && p in d.holders ensures p.Inside(d) { assert d.Refers(p); }
  }

  lemma CopyIs(w: Setting, p: ObjectPtr, q: ObjectPtr, granted: Outcome, v: PtrValue, r: Outcome)
    requires Sound(w) && p in w.ptrs && q in w.ptrs
    requires w.ptrs[q].To? ==> granted == GrantedAt(w, w.ptrs[q].od)
    requires r == if w.ptrs[q].To? && !(w.ptrs[p].To? && w.ptrs[p].od == w.ptrs[q].od) then granted else Done
    requires v == if r == Done then w.ptrs[q] else w.ptrs[p]
    ensures (SetPtr(w, p, v), r) == CopyEffect(w, p, q)
  {
    if r != Done { assert w.ptrs[p := w.ptrs[p]] == w.ptrs; }
  }

  method CopyStep(p: ObjectPtr, q: ObjectPtr, ghost dicts: set<ObjectDictionary>, ghost ptrs: set<ObjectPtr>) returns (r: Outcome)
    requires World(dicts, ptrs) && p in ptrs && q in ptrs && Sound(Value(dicts, ptrs))
    modifies p, (if p.pointsToNothing then {} else {p.od}), (if q.pointsToNothing then {} else {q.od})
    ensures World(dicts, ptrs) && (Value(dicts, ptrs), r) == CopyEffect(old(Value(dicts, ptrs)), p, q)
    ensures forall d :: d in dicts ==> d.container == old(d.container)
  {
    hide Count, LowerBound, Locks, CopyEffect, SetPtr, Kept, Still, World, Inside, Sound, DictOf, ObjectPtr.Moved, ObjectDictionary.Valid;
    ghost var before := Value(dicts, ptrs);
    Ready(dicts, ptrs);
    PtrReady(p, dicts, ptrs);
    PtrReady(q, dicts, ptrs);
    ghost var granted := if q.pointsToNothing then Done else Granted(q.od.nbOfLocks, q.od.nbOfBlockedWriters);
    assert before.ptrs[p] == PtrOf(p) && before.ptrs[q] == PtrOf(q);
    ghost var d0, d1 := p.od, q.od;
    r := p.Assign(q);
    forall d | d in dicts ensures Kept(d, {p}, before) && d.container == old(d.container) {
      if d == d0 && before.ptrs[p].To? {
        MovedKept(p, d, old(p.od.holders), old(p.od.State()), true, before);
      } else if d == d1 && before.ptrs[q].To? {
        MovedKept(p, d, old(q.od.holders), old(q.od.State()), false, before);
      } else {
        assert unchanged(d) && p !in d.holders;
        assert Still(d, before);
        StillKept(d, {p}, before);
      }
    }
    OneMoved(p, before, dicts, ptrs);
    CopyIs(before, p, q, granted, PtrOf(p), r);
  }

  lemma TwoMoved(p: ObjectPtr, q: ObjectPtr, before: Setting, dicts: set<ObjectDictionary>, ptrs: set<ObjectPtr>)
    requires Sound(before) && before.dicts.Keys == dicts && before.ptrs.Keys == ptrs && p in ptrs && q in ptrs && p != q
    requires p.Valid() && (!p.pointsToNothing ==> p.od in dicts) && q.Valid() && (!q.pointsToNothing ==> q.od in dicts)
    requires forall d :: d in dicts ==> Kept(d, {p, q}, before)
    requires forall r :: r in ptrs && r != p && r != q ==> PtrOf(r) == before.ptrs[r]
    ensures World(dicts, ptrs) && Value(dicts, ptrs) == SetPtr(SetPtr(before, p, PtrOf(p)), q, PtrOf(q))
  {
    hide Kept, World, Sound, Inside, ObjectPtr.Valid;
    OnlyMoved({p, q}, before, dicts, ptrs);
    hide Value, PtrOf;
    assert Value(dicts, ptrs).ptrs == before.ptrs[p := PtrOf(p)][q := PtrOf(q)];
  }

  lemma HandedKept(p: ObjectPtr, q: ObjectPtr, d: ObjectDictionary, holders: set<ObjectPtr>, state: DictState, was: int, before: Setting)
    requires p.Handed(d, q, holders, state, was) && holders - {p, q} == Inside(before, d) - {p, q} && d in before.dicts
    requires before.dicts[d] == DictValue(state.nbOfBlockedWriters, state.others, state.container.Keys)
    ensures Kept(d, {p, q}, before) && d.container == state.container
  {
  }

  method MoveStep(p: ObjectPtr, q: ObjectPtr, ghost dicts: set<ObjectDictionary>, ghost ptrs: set<ObjectPtr>)
    requires World(dicts, ptrs) && p in ptrs && q in ptrs && Sound(Value(dicts, ptrs)) && p != q
    modifies p, q, (if p.pointsToNothing then {} else {p.od}), (if q.pointsToNothing then {} else {q.od})
    ensures World(dicts, ptrs) && forall d :: d in dicts ==> d.container == old(d.container)
    ensures var before := old(Value(dicts, ptrs)); Value(dicts, ptrs) == SetPtr(SetPtr(before, p, before.ptrs[q]), q, Nothing)
  {
    hide Count, LowerBound, Locks, SetPtr, Kept, Still, World, Inside, Sound, DictOf, ObjectPtr.Handed, ObjectDictionary.Valid;
    ghost var before := Value(dicts, ptrs);
    Ready(dicts, ptrs);
    PtrReady(p, dicts, ptrs);
    PtrReady(q, dicts, ptrs);
    ghost var d0, d1 := p.od, q.od;
    p.MoveAssign(q);
    forall d | d in dicts ensures Kept(d, {p, q}, before) && d.container == old(d.container) {
      if d == d0 && before.ptrs[p].To? {
        HandedKept(p, q, d, old(p.od.holders), old(p.od.State()), 1 + B2I(old(q.Inside(p.od))), before);
      } else if d == d1 && before.ptrs[q].To? {
        HandedKept(p, q, d, old(q.od.holders), old(q.od.State()), 1 + B2I(old(p.Inside(q.od))), before);
      } else {
        assert unchanged(d) && p !in d.holders && q !in d.holders;
        assert Still(d, before);
        StillKept(d, {p, q}, before);
      }
    }
    TwoMoved(p, q, before, dicts, ptrs);
  }

  method NextStep(p: ObjectPtr, ghost dicts: set<ObjectDictionary>, ghost ptrs: set<ObjectPtr>) returns (r: Outcome)
    requires World(dicts, ptrs) && p in ptrs && Sound(Value(dicts, ptrs))
    modifies p, (if p.pointsToNothing then {} else {p.od})
    ensures World(dicts, ptrs) && (Value(dicts, ptrs), r) == NextEffect(old(Value(dicts, ptrs)), p)
    ensures forall d :: d in dicts ==> d.container == old(d.container)
  {
    hide Count, LowerBound, Locks, Kept, Still, World, Inside, Sound, DictOf, ObjectPtr.Moved, ObjectDictionary.Valid;
    ghost var before := Value(dicts, ptrs);
    Ready(dicts, ptrs);
    PtrReady(p, dicts, ptrs);
    ghost var d0 := p.od;
    r := p.Increment();
    forall d | d in dicts ensures Kept(d, {p}, before) && d.container == old(d.container) {
      if d == d0 && before.ptrs[p].To? {
        MovedKept(p, d, old(p.od.holders), old(p.od.State()), true, before);
      } else {
        assert unchanged(d) && p !in d.holders;
        assert Still(d, before);
        StillKept(d, {p}, before);
      }
    }
    OneMoved(p, before, dicts, ptrs);
    if r != Done { assert before.ptrs[p := before.ptrs[p]] == before.ptrs; }
  }

  method ResetStep(p: ObjectPtr, ghost dicts: set<ObjectDictionary>, ghost ptrs: set<ObjectPtr>)
    requires World(dicts, ptrs) && p in ptrs && Sound(Value(dicts, ptrs))
    modifies p, (if p.pointsToNothing then {} else {p.od})
    ensures World(dicts, ptrs) && Value(dicts, ptrs) == SetPtr(old(Value(dicts, ptrs)), p, Nothing)
    ensures forall d :: d in dicts ==> d.container == old(d.container)
  {
    hide Count, LowerBound, Locks, Kept, Still, World, Inside, SetPtr, Sound, DictOf, ObjectPtr.Moved, ObjectDictionary.Valid;
    ghost var before := Value(dicts, ptrs);
    Ready(dicts, ptrs);
    PtrReady(p, dicts, ptrs);
    ghost var d0 := p.od;
    p.Reset();
    forall d | d in dicts ensures Kept(d, {p}, before) && d.container == old(d.container) {
      if d == d0 && before.ptrs[p].To? {
        MovedKept(p, d, old(p.od.holders), old(p.od.State()), true, before);
      } else {
        assert unchanged(d) && p !in d.holders;
        assert Still(d, before);
        StillKept(d, {p}, before);
      }
    }
    OneMoved(p, before, dicts, ptrs);
  }

  /** How to see that the objects have the value w. */
  lemma HasValue(w: Setting, dicts: set<ObjectDictionary>, ptrs: set<ObjectPtr>)
    requires Sound(w) && w.dicts.Keys == dicts && w.ptrs.Keys == ptrs
    requires (forall d :: d in dicts ==> Still(d, w)) && forall p :: p in ptrs ==> PtrOf(p) == w.ptrs[p]
    ensures World(dicts, ptrs) && Value(dicts, ptrs) == w
  {
    hide Count, ObjectDictionary.Valid;
    forall p | p in ptrs && !p.pointsToNothing ensures p.od in dicts && p.Valid() {
      assert PtrOf(p).To? && p in Inside(w, p.od);
      assert Still(p.od, w);
    }
    forall d | d in dicts ensures d.Valid() && d.holders <= ptrs { assert Still(d, w); }
  }

  lemma SameInside(w: Setting, d: ObjectDictionary, v: DictValue, e: ObjectDictionary)
    ensures Inside(SetDict(w, d, v), e) == Inside(w, e)
  {
  }

  /** When only d has changed, but not the pointers into it. */
  lemma OneChanged(d: ObjectDictionary, before: Setting, dicts: set<ObjectDictionary>, ptrs: set<ObjectPtr>)
    requires before.dicts.Keys == dicts && before.ptrs.Keys == ptrs && d in dicts
    requires Sound(SetDict(before, d, DictOf(d))) && d.Valid() && d.holders == Inside(before, d)
    requires forall e :: e in dicts && e != d ==> Still(e, before)
    requires forall p :: p in ptrs ==> PtrOf(p) == before.ptrs[p]
    ensures World(dicts, ptrs) && Value(dicts, ptrs) == SetDict(before, d, DictOf(d))
  {
    hide Sound, Inside, World, Value, DictOf, PtrOf, ObjectDictionary.Valid;
    forall e | e in dicts ensures Still(e, SetDict(before, d, DictOf(d))) { SameInside(before, d, DictOf(d), e); }
    HasValue(SetDict(before, d, DictOf(d)), dicts, ptrs);
  }

  method LockStep(d: ObjectDictionary, ghost dicts: set<ObjectDictionary>, ghost ptrs: set<ObjectPtr>) returns (r: Outcome)
    requires World(dicts, ptrs) && d in dicts && Sound(Value(dicts, ptrs))
    modifies d
    ensures World(dicts, ptrs) && (Value(dicts, ptrs), r) == LockEffect(old(Value(dicts, ptrs)), d)
    ensures forall d :: d in dicts ==> d.container == old(d.container)
  {
    hide Count, Locks, Still, World, Inside, Sound, ObjectDictionary.Valid;
    ghost var before := Value(dicts, ptrs);
    Ready(dicts, ptrs);
    DictReady(d, dicts, ptrs);
    r := d.LockForObjAccess();
    EffectSound(before, OpLock(d));
    assert SetDict(before, d, before.dicts[d]) == before;
    OneChanged(d, before, dicts, ptrs);
  }

  method UnlockStep(d: ObjectDictionary, ghost dicts: set<ObjectDictionary>, ghost ptrs: set<ObjectPtr>)
    requires World(dicts, ptrs) && d in dicts && Sound(Value(dicts, ptrs))
    modifies d
    ensures World(dicts, ptrs) && Value(dicts, ptrs) == Effect(old(Value(dicts, ptrs)), OpUnlock(d)).0
    ensures forall d :: d in dicts ==> d.container == old(d.container)
  {
    hide Count, Locks, Still, World, Inside, Sound, ObjectDictionary.Valid;
    ghost var before := Value(dicts, ptrs);
    Ready(dicts, ptrs);
    DictReady(d, dicts, ptrs);
    if d.others > 0 {
      d.UnlockObjAccess();
      EffectSound(before, OpUnlock(d));
      OneChanged(d, before, dicts, ptrs);
    }
  }

  lemma ChangedKeys(m: map<nat, CodObject>, index: nat, obj: CodObject)
    ensures m[index := obj].Keys == Changed(m.Keys, Add(index))
    ensures index in m ==> m.Keys == Changed(m.Keys, Add(index))
  {
  }

  lemma ChangedAlone(w: Setting, d: ObjectDictionary, change: Change, waiting: bool)
    requires d in w.dicts
    ensures d in ChangeEffect(w, d, change, waiting).0.dicts
    ensures ChangeEffect(w, d, change, waiting).0.dicts[d].keys != w.dicts[d].keys ==> Inside(w, d) == {} && w.dicts[d].others == 0
  {
    hide Inside;
    if Locks(w, d) != 0 { LockedKeys(w, d, change, waiting); }
  }

  lemma ChangeDone(d: ObjectDictionary, change: Change, waiting: bool, r: Outcome, before: Setting,
                   dicts: set<ObjectDictionary>, ptrs: set<ObjectPtr>)
    requires Sound(before) && before.dicts.Keys == dicts && before.ptrs.Keys == ptrs && d in dicts
    requires change.Add? ==> change.index <= MAX_INDEX
    requires (DictOf(d), r) == ChangeDict(before.dicts[d], Locks(before, d), change, waiting)
    requires d.Valid() && d.holders == Inside(before, d)
    requires forall e :: e in dicts && e != d ==> Still(e, before)
    requires forall p :: p in ptrs ==> PtrOf(p) == before.ptrs[p]
    ensures World(dicts, ptrs) && (Value(dicts, ptrs), r) == ChangeEffect(before, d, change, waiting)
  {
    hide Sound, Inside, Locks, World, Value, Still, DictOf, PtrOf, ChangeDict, ObjectDictionary.Valid;
    EffectSound(before, OpChange(d, change, waiting));
    OneChanged(d, before, dicts, ptrs);
  }

  lemma Apart(d: ObjectDictionary, e: ObjectDictionary)
    requires d.Registered() && e.Registered() && d != e
    ensures d.container.Values !! e.container.Values
  {
  }

  method AddStep(d: ObjectDictionary, index: nat, waiting: bool, ghost dicts: set<ObjectDictionary>, ghost ptrs: set<ObjectPtr>)
    returns (r: Outcome)
    requires World(dicts, ptrs) && d in dicts && index <= MAX_INDEX && Sound(Value(dicts, ptrs))
    modifies d
    ensures World(dicts, ptrs) && (Value(dicts, ptrs), r) == ChangeEffect(old(Value(dicts, ptrs)), d, Add(index), waiting)
    ensures forall o :: o in d.container.Values ==> o in old(d.container.Values) || fresh(o)
  {
    hide Count, Locks, Still, World, Inside, Sound, WriteGranted, Changed, ChangeEffect, ObjectDictionary.Valid;
    ghost var before := Value(dicts, ptrs);
    Ready(dicts, ptrs);
    DictReady(d, dicts, ptrs);
    var obj := new CodObject();
    ChangedKeys(d.container, index, obj);
    r := d.Add(obj, index, waiting && d.nbOfBlockedWriters > 0);
    ChangeDone(d, Add(index), waiting, r, before, dicts, ptrs);
  }

  method RemoveStep(d: ObjectDictionary, index: nat, waiting: bool, ghost dicts: set<ObjectDictionary>, ghost ptrs: set<ObjectPtr>)
    returns (r: Outcome)
    requires World(dicts, ptrs) && d in dicts && Sound(Value(dicts, ptrs))
    modifies d, d.container.Values
    ensures World(dicts, ptrs) && (Value(dicts, ptrs), r) == ChangeEffect(old(Value(dicts, ptrs)), d, Remove(index), waiting)
    ensures d.container.Values <= old(d.container.Values)
  {
    hide Count, Locks, Still, World, Inside, Sound, WriteGranted, ChangeEffect, ObjectDictionary.Valid;
    ghost var before := Value(dicts, ptrs);
    Ready(dicts, ptrs);
    DictReady(d, dicts, ptrs);
    forall e | e in dicts && e != d ensures d.container.Values !! e.container.Values { DictReady(e, dicts, ptrs); Apart(d, e); }
    ghost var c := d.container;
    assert (c - {index}).Keys == c.Keys - {index};
    r := d.Remove(index, waiting && d.nbOfBlockedWriters > 0);
    ChangeDone(d, Remove(index), waiting, r, before, dicts, ptrs);
  }

  method ClearStep(d: ObjectDictionary, waiting: bool, ghost dicts: set<ObjectDictionary>, ghost ptrs: set<ObjectPtr>)
    returns (r: Outcome)
    requires World(dicts, ptrs) && d in dicts && Sound(Value(dicts, ptrs))
    modifies d, d.container.Values
    ensures World(dicts, ptrs) && (Value(dicts, ptrs), r) == ChangeEffect(old(Value(dicts, ptrs)), d, Clear, waiting)
    ensures d.container.Values <= old(d.container.Values)
  {
    hide Count, Locks, Still, World, Inside, Sound, WriteGranted, ChangeEffect, ObjectDictionary.Valid;
    ghost var before := Value(dicts, ptrs);
    Ready(dicts, ptrs);
    DictReady(d, dicts, ptrs);
    forall e | e in dicts && e != d ensures d.container.Values !! e.container.Values { DictReady(e, dicts, ptrs); Apart(d, e); }
    r := d.Clear(waiting && d.nbOfBlockedWriters > 0);
    assert r == Done ==> d.container.Keys == {} && d.container.Values == {};
    ChangeDone(d, Clear, waiting, r, before, dicts, ptrs);
  }

  /** Registration and removal: nothing changes while a pointer into d exists. */
  method ChangeStep(d: ObjectDictionary, change: Change, waiting: bool, ghost dicts: set<ObjectDictionary>, ghost ptrs: set<ObjectPtr>)
    returns (r: Outcome)
    requires World(dicts, ptrs) && d in dicts && (change.Add? ==> change.index <= MAX_INDEX) && Sound(Value(dicts, ptrs))
    modifies d, d.container.Values
    ensures World(dicts, ptrs) && (Value(dicts, ptrs), r) == ChangeEffect(old(Value(dicts, ptrs)), d, change, waiting)
    ensures forall o :: o in d.container.Values ==> o in old(d.container.Values) || fresh(o)
    ensures d.container.Keys != old(d.container.Keys) ==> old(Inside(Value(dicts, ptrs), d)) == {} && old(d.others) == 0
  {
    hide Count, World, Sound, Inside, ChangeEffect;
    ghost var before := Value(dicts, ptrs);
    ChangedAlone(before, d, change, waiting);
    match change {
      case Add(index) => r := AddStep(d, index, waiting, dicts, ptrs);
      case Remove(index) => r := RemoveStep(d, index, waiting, dicts, ptrs);
      case Clear => r := ClearStep(d, waiting, dicts, ptrs);
    }
  }

  /** A look-up returns a new pointer t. */
  lemma Created(t: ObjectPtr, d: ObjectDictionary, before: Setting, dicts: set<ObjectDictionary>, ptrs: set<ObjectPtr>)
    requires before.dicts.Keys == dicts && before.ptrs.Keys == ptrs && d in dicts && t !in ptrs
    requires Sound(SetPtr(SetDict(before, d, DictOf(d)), t, PtrOf(t))) && (PtrOf(t).To? ==> t.od == d)
    requires d.Valid() && d.holders == Inside(before, d) + (if PtrOf(t).To? then {t} else {})
    requires forall e :: e in dicts && e != d ==> Still(e, before)
    requires forall p :: p in ptrs ==> PtrOf(p) == before.ptrs[p]
    ensures World(dicts, ptrs + {t}) && Value(dicts, ptrs + {t}) == SetPtr(SetDict(before, d, DictOf(d)), t, PtrOf(t))
  {
    hide Sound, World, Value, DictOf, ObjectDictionary.Valid;
    var w := SetPtr(SetDict(before, d, DictOf(d)), t, PtrOf(t));
    forall e | e in dicts ensures Still(e, w) {
      assert Inside(w, e) == Inside(before, e) + (if PtrOf(t).To? && t.od == e then {t} else {});
    }
    HasValue(w, dicts, ptrs + {t});
  }

  /** A pointer to nothing dies. */
  lemma Dropped(t: ObjectPtr, w: Setting, dicts: set<ObjectDictionary>, ptrs: set<ObjectPtr>)
    requires World(dicts, ptrs + {t}) && t !in ptrs && t.pointsToNothing
    requires w.ptrs.Keys == ptrs && Value(dicts, ptrs + {t}) == SetPtr(w, t, Nothing)
    ensures World(dicts, ptrs) && Value(dicts, ptrs) == w
  {
    hide Count;
    forall d | d in dicts ensures d.holders <= ptrs {
      forall p | p in d.holders ensures p in ptrs { assert d.Refers(p); }
    }
    assert Value(dicts, ptrs).ptrs == w.ptrs by {
      forall p | p in ptrs ensures PtrOf(p) == w.ptrs[p] { assert Value(dicts, ptrs + {t}).ptrs[p] == PtrOf(p); }
    }
  }

  lemma FinishSound(w: Setting, d: ObjectDictionary, query: Query, t: ObjectPtr)
    requires Sound(w) && d in w.dicts && w.dicts[d].others > 0 && (query.First? || query.index <= MAX_INDEX)
    ensures var v := w.dicts[d];
            var u := SetDict(w, d, v.(others := v.others - 1));
            Sound(u) && Sound(SetPtr(u, t, Position(d, Lookup(v.keys, query))))
  {
    hide Lookup;
    LookupIs(w.dicts[d].keys, query);
  }

  /** The pointer t returned by a dictionary is moved to p and dies. */
  method Receive(p: ObjectPtr, t: ObjectPtr, ghost w: Setting, ghost dicts: set<ObjectDictionary>, ghost ptrs: set<ObjectPtr>)
    requires World(dicts, ptrs + {t}) && p in ptrs && t !in ptrs && w.ptrs.Keys == ptrs
    requires Value(dicts, ptrs + {t}) == SetPtr(w, t, PtrOf(t)) && Sound(Value(dicts, ptrs + {t}))
    modifies p, t, dicts
    ensures World(dicts, ptrs) && Value(dicts, ptrs) == SetPtr(w, p, old(PtrOf(t)))
    ensures forall d :: d in dicts ==> d.container == old(d.container)
  {
    hide World, Value, Sound;
    PtrReady(p, dicts, ptrs + {t});
    PtrReady(t, dicts, ptrs + {t});
    ghost var v := PtrOf(t);
    MoveStep(p, t, dicts, ptrs + {t});
    PtrReady(t, dicts, ptrs + {t});
    Swapped(w, p, t, v);
    Dropped(t, SetPtr(w, p, v), dicts, ptrs);
  }

  lemma Swapped(w: Setting, p: ObjectPtr, t: ObjectPtr, v: PtrValue)
    requires p in w.ptrs && t !in w.ptrs
    ensures SetPtr(SetPtr(SetPtr(w, t, v), p, v), t, Nothing) == SetPtr(SetPtr(w, p, v), t, Nothing)
  {
  }

  method FinishStep(p: ObjectPtr, d: ObjectDictionary, query: Query, ghost dicts: set<ObjectDictionary>, ghost ptrs: set<ObjectPtr>)
    returns (r: Outcome)
    requires World(dicts, ptrs) && p in ptrs && d in dicts && (query.First? || query.index <= MAX_INDEX)
    requires Sound(Value(dicts, ptrs))
    modifies p, dicts
    ensures World(dicts, ptrs) && (Value(dicts, ptrs), r) == FinishEffect(old(Value(dicts, ptrs)), p, d, query)
    ensures forall d :: d in dicts ==> d.container == old(d.container)
  {
    hide Count, Lookup, Locks, Still, World, Inside, Sound, Granted, ObjectDictionary.Valid;
    if d.others == 0 { return Done; }
    ghost var before := Value(dicts, ptrs);
    Ready(dicts, ptrs);
    DictReady(d, dicts, ptrs);
    FinishSound(before, d, query, p);
    var t;
    r, t := d.GetLocked(query);
    if r != Done {
      OneChanged(d, before, dicts, ptrs);
    } else {
      FinishSound(before, d, query, t);
      Created(t, d, before, dicts, ptrs);
      Receive(p, t, SetDict(before, d, DictOf(d)), dicts, ptrs);
    }
  }

  method SelfStep(p: ObjectPtr, ghost dicts: set<ObjectDictionary>, ghost ptrs: set<ObjectPtr>)
    requires World(dicts, ptrs) && p in ptrs && Sound(Value(dicts, ptrs))
    modifies p, (if p.pointsToNothing then {} else {p.od})
    ensures World(dicts, ptrs) && Value(dicts, ptrs) == old(Value(dicts, ptrs))
    ensures forall d :: d in dicts ==> d.container == old(d.container)
  {
    hide Count, Locks, World, Still, Inside, Sound, ObjectDictionary.Valid;
    ghost var before := Value(dicts, ptrs);
    Ready(dicts, ptrs);
    PtrReady(p, dicts, ptrs);
    ghost var d0 := p.od;
    p.MoveAssign(p);
    forall d | d in dicts ensures Still(d, before) && d.container == old(d.container) {
      if d == d0 && !p.pointsToNothing {
        StillIs(d, before);
      } else {
        assert unchanged(d) && p !in d.holders;
      }
    }
    HasValue(before, dicts, ptrs);
  }

  lemma StillIs(d: ObjectDictionary, w: Setting)
    requires d in w.dicts && d.Valid() && DictOf(d) == w.dicts[d] && d.holders == Inside(w, d)
    ensures Still(d, w)
  {
  }

  // ---------------------------------------------------------------- runs

  /** One operation has its effect. */
  method Step(op: Op, ghost dicts: set<ObjectDictionary>, ghost ptrs: set<ObjectPtr>) returns (r: Outcome)
    requires World(dicts, ptrs) && Among(op, dicts, ptrs) && Sound(Value(dicts, ptrs))
    modifies dicts, ptrs, Objects(dicts)
    ensures World(dicts, ptrs) && (Value(dicts, ptrs), r) == Effect(old(Value(dicts, ptrs)), op)
    ensures forall o :: o in Objects(dicts) ==> o in old(Objects(dicts)) || fresh(o)
  {
    hide World, Sound, Value, CopyEffect, NextEffect, LockEffect, FinishEffect, ChangeEffect;
    match op {
      case OpCopy(p, q) =>
        PtrReady(p, dicts, ptrs);
        PtrReady(q, dicts, ptrs);
        r := CopyStep(p, q, dicts, ptrs);
      case OpMove(p, q) =>
        PtrReady(p, dicts, ptrs);
        PtrReady(q, dicts, ptrs);
        if p != q { MoveStep(p, q, dicts, ptrs); } else { SelfStep(p, dicts, ptrs); }
        r := Done;
      case OpNext(p) =>
        PtrReady(p, dicts, ptrs);
        r := NextStep(p, dicts, ptrs);
      case OpReset(p) =>
        PtrReady(p, dicts, ptrs);
        ResetStep(p, dicts, ptrs);
        r := Done;
      case OpLock(d) => r := LockStep(d, dicts, ptrs);
      case OpUnlock(d) => UnlockStep(d, dicts, ptrs); r := Done;
      case OpFinish(p, d, query) => r := FinishStep(p, d, query, dicts, ptrs);
      case OpChange(d, change, waiting) => r := ChangeStep(d, change, waiting, dicts, ptrs);
    }
  }

  /** Any run of operations does what it would do without counters, with the same outcomes. */
  method Perform(ops: seq<Op>, ghost dicts: set<ObjectDictionary>, ghost ptrs: set<ObjectPtr>) returns (outcomes: seq<Outcome>)
    requires World(dicts, ptrs) && forall i :: 0 <= i < |ops| ==> Among(ops[i], dicts, ptrs)
    requires Sound(Value(dicts, ptrs))
    modifies dicts, ptrs, Objects(dicts)
    ensures World(dicts, ptrs) && (Value(dicts, ptrs), outcomes) == Effects(old(Value(dicts, ptrs)), ops)
    ensures forall d :: d in dicts ==> d.nbOfLocks == Locks(Value(dicts, ptrs), d)
  {
    hide World, Sound, Value, Effect, Locks;
    ghost var before := Value(dicts, ptrs);
    outcomes := [];
    for i := 0 to |ops|
      invariant World(dicts, ptrs) && Sound(Value(dicts, ptrs)) && (Value(dicts, ptrs), outcomes) == Effects(before, ops[..i])
      invariant forall o :: o in Objects(dicts) ==> o in old(Objects(dicts)) || fresh(o)
    {
      EffectSound(Value(dicts, ptrs), ops[i]);
      var r := Step(ops[i], dicts, ptrs);
      assert ops[..i + 1][..i] == ops[..i];
      outcomes := outcomes + [r];
    }
    assert ops[..|ops|] == ops;
    Ready(dicts, ptrs);
  }
}
