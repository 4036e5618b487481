/**
 The object dictionary and the smart pointers into it (src/cood/ObjectDictionary.cpp, src/cood/ObjectPtr.cpp,
 src/osal/universal/RWLock.cpp). A thread that has to wait gets the result Waiting and calls again. Looking up an object
 takes two steps, between which other threads may do anything: acquiring a read-lock, and making the pointer under it.
 */
module ObjectDictionaries {

  const INT32_MAX: int := 0x7FFF_FFFF
  const MAX_INDEX: nat := 0xFFFF

  datatype Outcome = Done | Waiting | LogicError | RuntimeError

  class CodObject {
    var pOD: ObjectDictionary?
    var index: nat
    ghost var deleted: bool

    constructor ()
      ensures pOD == null && !deleted
    {
      pOD, index, deleted := null, 0, false;
    }
  }

  /** Position in the ordered container of a dictionary. */
  datatype Iterator = End | Key(index: nat)

  /** The least key that is not less than k. */
  function LowerBound(keys: set<nat>, k: nat): (it: Iterator)
    decreases MAX_INDEX + 1 - k
  {
    if k > MAX_INDEX then End else if k in keys then Key(k) else LowerBound(keys, k + 1)
  }

  lemma {:induction false} LowerBoundIs(keys: set<nat>, k: nat)
    requires forall i :: i in keys ==> i <= MAX_INDEX
    ensures match LowerBound(keys, k)
            case End => forall i :: i in keys ==> i < k
            case Key(i) => i in keys && i >= k && forall j :: j in keys && j >= k ==> i <= j
    decreases MAX_INDEX + 1 - k
  {
    if k <= MAX_INDEX && k !in keys { LowerBoundIs(keys, k + 1); }
  }

  ghost function Count(h: set<ObjectPtr>): nat { |h| }

  lemma NoPtrs(h: set<ObjectPtr>)
    ensures Count(h) == 0 <==> h == {}
  {
  }

  lemma OneMore(h: set<ObjectPtr>, p: ObjectPtr)
    requires p !in h
    ensures Count(h + {p}) == Count(h) + 1
  {
  }

  lemma OneLess(h: set<ObjectPtr>, p: ObjectPtr)
    requires p in h
    ensures Count(h - {p}) == Count(h) - 1 && Count(h) > 0
  {
  }

  lemma OtherOne(h: set<ObjectPtr>, p: ObjectPtr, q: ObjectPtr)
    requires q in h && p !in h
    ensures Count(h - {q} + {p}) == Count(h)
  {
    OneLess(h, q);
    OneMore(h - {q}, p);
  }

  /** std::map: find, upper_bound. */
  function Find(keys: set<nat>, k: nat): Iterator { if k in keys then Key(k) else End }

  function UpperBound(keys: set<nat>, k: nat): Iterator { LowerBound(keys, k + 1) }

  /** What a dictionary is to its users, except for the identity of those who hold its locks. */
  datatype DictState = DictState(nbOfLocks: int, nbOfBlockedWriters: nat, others: nat, container: map<nat, CodObject>)

  function B2I(b: bool): int { if b then 1 else 0 }

  /** IncReadLock: whether a further read-lock is granted. */
  function Granted(nbOfLocks: int, nbOfBlockedWriters: nat): Outcome
  {
    if nbOfLocks < 0 || nbOfBlockedWriters != 0 then LogicError
    else if nbOfLocks == INT32_MAX then RuntimeError
    else Done
  }

  /** WriteLock: whether the lock is granted, and how many writers are blocked then. */
  function WriteGranted(nbOfLocks: int, nbOfBlockedWriters: nat, waiting: bool): (Outcome, nat)
    requires waiting ==> nbOfBlockedWriters > 0
  {
    if nbOfLocks == 0 then (Done, nbOfBlockedWriters - B2I(waiting))
    else if waiting then (Waiting, nbOfBlockedWriters)
    else if nbOfBlockedWriters == INT32_MAX then (RuntimeError, nbOfBlockedWriters)
    else (Waiting, nbOfBlockedWriters + 1)
  }

  class ObjectDictionary {
    var nbOfLocks: int           // -1: locked by a writer
    var nbOfBlockedWriters: nat
    var container: map<nat, CodObject>
    ghost var holders: set<ObjectPtr>  // the ObjectPtrs that hold a read-lock
    var others: nat                    // read-locks held through RWLockReadLocker objects

    /** Every lock has a holder; registered objects know where they are; a pointer that holds a lock refers to one of
        them. */
    ghost predicate Valid()
      reads this, container.Values, holders
    {
      && nbOfLocks == Count(holders) + others && nbOfLocks <= INT32_MAX && nbOfBlockedWriters <= INT32_MAX
      && Registered() && Referring()
    }

    ghost function State(): DictState
      reads this
    {
      DictState(nbOfLocks, nbOfBlockedWriters, others, container)
    }

    ghost predicate Registered()
      reads this`container, container.Values
    {
      forall i :: i in container ==>
        i <= MAX_INDEX && container[i].pOD == this && container[i].index == i && !container[i].deleted
    }

    ghost predicate Referring()
      reads this`holders, this`container, holders
    {
      forall p :: p in holders ==> Refers(p)
    }

    ghost predicate Refers(p: ObjectPtr)
      reads this`container, p
    {
      !p.pointsToNothing && p.od == this && p.it.Key? && p.it.index in container
    }

    constructor ()
      ensures Valid() && container == map[] && holders == {} && others == 0 && nbOfBlockedWriters == 0
    {
      nbOfLocks, nbOfBlockedWriters, container, holders, others := 0, 0, map[], {}, 0;
      NoPtrs({});
    }

    // -------------------------------------------------------------- lock

    method TryReadLock() returns (r: Outcome, locked: bool)
      modifies this`nbOfLocks
      ensures r == if nbOfBlockedWriters == 0 && old(nbOfLocks) == INT32_MAX then RuntimeError else Done
      ensures locked == (0 <= old(nbOfLocks) != INT32_MAX && nbOfBlockedWriters == 0)
      ensures nbOfLocks == if locked then old(nbOfLocks) + 1 else old(nbOfLocks)
    {
      // a writer holds the lock or waits for it
      if nbOfLocks < 0 || nbOfBlockedWriters != 0 { return Done, false; }
      if nbOfLocks == INT32_MAX { return RuntimeError, false; }
      nbOfLocks := nbOfLocks + 1;
      return Done, true;
    }

    method ReadLock() returns (r: Outcome)
      modifies this`nbOfLocks
      ensures r == (if old(nbOfLocks) < 0 || nbOfBlockedWriters != 0 then Waiting
                    else if old(nbOfLocks) == INT32_MAX then RuntimeError else Done)
      ensures nbOfLocks == if r == Done then old(nbOfLocks) + 1 else old(nbOfLocks)
    {
      if nbOfLocks < 0 || nbOfBlockedWriters != 0 { return Waiting; }
      if nbOfLocks == INT32_MAX { return RuntimeError; }
      nbOfLocks := nbOfLocks + 1;
      return Done;
    }

    /** ReleaseReadLock would throw, and its caller panic, if the lock were not held. */
    method ReleaseReadLock()
      requires nbOfLocks > 0
      modifies this`nbOfLocks
      ensures nbOfLocks == old(nbOfLocks) - 1
    {
      nbOfLocks := nbOfLocks - 1;
    }

    /** WriteLock; `waiting` if the thread has been blocked in here before. */
    method WriteLock(waiting: bool) returns (r: Outcome)
      requires waiting ==> nbOfBlockedWriters > 0
      modifies this`nbOfLocks, this`nbOfBlockedWriters
      ensures (r, nbOfBlockedWriters) == WriteGranted(old(nbOfLocks), old(nbOfBlockedWriters), waiting)
      ensures nbOfLocks == if r == Done then -1 else old(nbOfLocks)
    {
      if nbOfLocks != 0 {
        if !waiting {
          if nbOfBlockedWriters == INT32_MAX { return RuntimeError; }
          nbOfBlockedWriters := nbOfBlockedWriters + 1;
        }
        return Waiting;
      }
      if waiting { nbOfBlockedWriters := nbOfBlockedWriters - 1; }
      nbOfLocks := -1;
      return Done;
    }

    method ReleaseWriteLock()
      requires nbOfLocks == -1
      modifies this`nbOfLocks
      ensures nbOfLocks == 0
    {
      nbOfLocks := 0;
    }

    // -------------------------------------------------------------- registration: nobody may hold a read-lock

    method Add(obj: CodObject, index: nat, waiting: bool) returns (r: Outcome)
      requires Valid() && (waiting ==> nbOfBlockedWriters > 0)
      requires index <= MAX_INDEX && obj.pOD == null && !obj.deleted
      modifies this`nbOfLocks, this`nbOfBlockedWriters, this`container, obj
      ensures Valid() && nbOfLocks == old(nbOfLocks)
      ensures var (g, blocked) := WriteGranted(old(nbOfLocks), old(nbOfBlockedWriters), waiting);
              && nbOfBlockedWriters == blocked
              && r == (if g == Done && index in old(container) then LogicError else g)
      ensures r == Done ==> holders == {} && others == 0
      ensures container == if r == Done then old(container)[index := obj] else old(container)
      ensures r != Done ==> obj.pOD == null
    {
      r := WriteLock(waiting);
      if r != Done { return r; }
      NoPtrs(holders);
      if index in container {
        ReleaseWriteLock();
        return LogicError;
      }
      container := container[index := obj];
      obj.index := index;
      obj.pOD := this;
      ReleaseWriteLock();
    }

    method Remove(index: nat, waiting: bool) returns (r: Outcome)
      requires Valid() && (waiting ==> nbOfBlockedWriters > 0)
      modifies this`nbOfLocks, this`nbOfBlockedWriters, this`container, container.Values
      ensures Valid() && nbOfLocks == old(nbOfLocks)
      ensures (r, nbOfBlockedWriters) == WriteGranted(old(nbOfLocks), old(nbOfBlockedWriters), waiting)
      ensures r == Done ==> holders == {} && others == 0
      ensures container == if r == Done then old(container) - {index} else old(container)
      ensures r == Done && index in old(container) ==> old(container)[index].deleted && old(container)[index].pOD == null
    {
      r := WriteLock(waiting);
      if r != Done { return r; }
      NoPtrs(holders);
      // look-up index
      if index in container {
        var pObj := container[index];
        container := container - {index};
        // destroy object
        pObj.pOD := null;
        pObj.deleted := true;
      } else {
        assert container == container - {index};
      }
      ReleaseWriteLock();
    }

    method Clear(waiting: bool) returns (r: Outcome)
      requires Valid() && (waiting ==> nbOfBlockedWriters > 0)
      modifies this`nbOfLocks, this`nbOfBlockedWriters, this`container, container.Values
      ensures Valid() && nbOfLocks == old(nbOfLocks)
      ensures (r, nbOfBlockedWriters) == WriteGranted(old(nbOfLocks), old(nbOfBlockedWriters), waiting)
      ensures r == Done ==> holders == {} && others == 0
      ensures container == if r == Done then map[] else old(container)
      ensures r == Done ==> forall o :: o in old(container).Values ==> o.deleted && o.pOD == null
    {
      r := WriteLock(waiting);
      if r != Done { return r; }
      NoPtrs(holders);
      forall o | o in container.Values { o.pOD := null; }
      forall o | o in container.Values { o.deleted := true; }
      container := map[];
      ReleaseWriteLock();
    }

    // -------------------------------------------------------------- access

    /** A read-lock that is not held through an ObjectPtr. */
    method LockForObjAccess() returns (r: Outcome)
      requires Valid()
      modifies this`nbOfLocks, this`others
      ensures Valid()
      ensures r == (if nbOfBlockedWriters != 0 then Waiting else if old(nbOfLocks) == INT32_MAX then RuntimeError else Done)
      ensures others == old(others) + B2I(r == Done) && nbOfLocks == old(nbOfLocks) + B2I(r == Done)
    {
      hide Count;
      r := ReadLock();
      if r == Done { others := others + 1; }
    }

    method UnlockObjAccess()
      requires Valid() && others > 0
      modifies this`nbOfLocks, this`others
      ensures Valid() && others == old(others) - 1 && nbOfLocks == old(nbOfLocks) - 1
    {
      hide Count;
      ReleaseReadLock();
      others := others - 1;
    }

    /** A further read-lock, which is refused instead of waiting for a writer; it is not held through an ObjectPtr yet. */
    method IncReadLock() returns (r: Outcome)
      requires Valid()
      modifies this`nbOfLocks, this`others
      ensures Valid() && r == Granted(old(nbOfLocks), nbOfBlockedWriters)
      ensures others == old(others) + B2I(r == Done) && nbOfLocks == old(nbOfLocks) + B2I(r == Done)
    {
      hide Count;
      var locked;
      r, locked := TryReadLock();
      if r != Done { return r; }
      if !locked { return LogicError; }
      others := others + 1;
    }

    /** The read-lock that has just been acquired is that of p. */
    method Join(p: ObjectPtr)
      requires Valid() && others > 0 && p !in holders && Refers(p)
      modifies this`holders, this`others
      ensures Valid() && holders == old(holders) + {p} && others == old(others) - 1
    {
      hide Count;
      OneMore(holders, p);
      holders := holders + {p};
      others := others - 1;
    }

    /** The read-lock of q becomes that of p. */
    method HandOver(q: ObjectPtr, p: ObjectPtr)
      requires Valid() && q in holders && p !in holders && Refers(p)
      modifies this`holders
      ensures Valid() && holders == old(holders) - {q} + {p}
    {
      hide Count;
      OtherOne(holders, p, q);
      holders := holders - {q} + {p};
    }

    /** Gives the read-lock of p up. */
    method DecReadLock(p: ObjectPtr)
      requires Valid() && p in holders
      modifies this`nbOfLocks, this`holders
      ensures Valid() && holders == old(holders) - {p} && nbOfLocks == old(nbOfLocks) - 1
    {
      hide Count;
      OneLess(holders, p);
      ReleaseReadLock();
      holders := holders - {p};
    }

    /** The second step of the three ways to get an ObjectPtr: makes a pointer to `it` under the read-lock that has been
        acquired, and gives the read-lock up. A writer may have been blocked in the meantime. */
    method MakePtr(it: Iterator) returns (r: Outcome, p: ObjectPtr?)
      requires Valid() && others > 0 && (it.Key? ==> it.index in container)
      modifies this`nbOfLocks, this`holders, this`others
      ensures Valid() && fresh({p} - {null}) && container == old(container) && others == old(others) - 1
      ensures r == if it.Key? then Granted(old(nbOfLocks), nbOfBlockedWriters) else Done
      ensures (r == Done) == (p != null)
      ensures r == Done ==> p.Points(this, it) && holders == old(holders) + (if it.Key? then {p} else {})
      ensures r != Done ==> holders == old(holders)
      ensures nbOfLocks == old(nbOfLocks) - 1 + B2I(r == Done && it.Key?)
    {
      hide Count, LowerBound, ObjectDictionary.Registered;
      p := null;
      if it == End {
        p := new ObjectPtr.Nothing();
        r := Done;
      } else {
        r := IncReadLock();
        if r == Done {
          p := new ObjectPtr.Init(this, it);
          Join(p);
        }
      }
      UnlockObjAccess();
    }

    /** What the three look-ups find. */
    ghost function Found(query: Query): (it: Iterator)
      reads this`container
    {
      Lookup(container.Keys, query)
    }

    /** The iterator for a look-up, found under a read-lock. */
    method Search(query: Query) returns (it: Iterator)
      requires Valid() && (query.First? || query.index <= MAX_INDEX)
      ensures it == Found(query) && (it.Key? ==> it.index in container)
    {
      hide Count;
      LookupIs(container.Keys, query);
      match query
      case First => it := LowerBound(container.Keys, 0);
      case Exactly(index) => it := Find(container.Keys, index);
      case Nearest(index) =>
        it := Find(container.Keys, index);
        if it == End {
          var index_minus_1 := if index == 0 then 0 else index - 1;
          it := UpperBound(container.Keys, index_minus_1);
          Skipped(container.Keys, index);
        }
    }

    /** The second step of a look-up. */
    method GetLocked(query: Query) returns (r: Outcome, p: ObjectPtr?)
      requires Valid() && others > 0 && (query.First? || query.index <= MAX_INDEX)
      modifies this`nbOfLocks, this`holders, this`others
      ensures Valid() && fresh({p} - {null}) && container == old(container) && others == old(others) - 1
      ensures r == if Found(query).Key? then Granted(old(nbOfLocks), nbOfBlockedWriters) else Done
      ensures (r == Done) == (p != null)
      ensures r == Done ==> p.Points(this, Found(query)) && holders == old(holders) + (if Found(query).Key? then {p} else {})
      ensures r != Done ==> holders == old(holders)
      ensures nbOfLocks == old(nbOfLocks) - 1 + B2I(r == Done && Found(query).Key?)
    {
      hide Count, Lookup;
      var it := Search(query);
      r, p := MakePtr(it);
    }

    /** Both steps of a look-up, with nobody in between. */
    method Get(query: Query) returns (r: Outcome, p: ObjectPtr?)
      requires Valid() && (query.First? || query.index <= MAX_INDEX)
      modifies this`nbOfLocks, this`holders, this`others
      ensures Valid() && fresh({p} - {null}) && container == old(container) && others == old(others)
      ensures r == GetOutcome(old(nbOfLocks), nbOfBlockedWriters, Found(query).Key?)
      ensures (r == Done) == (p != null)
      ensures r == Done ==> p.Points(this, Found(query)) && holders == old(holders) + (if Found(query).Key? then {p} else {})
      ensures r != Done ==> holders == old(holders)
      ensures nbOfLocks == old(nbOfLocks) + B2I(r == Done && Found(query).Key?)
    {
      hide Count, Lookup;
      p := null;
      r := LockForObjAccess();
      if r == Done { r, p := GetLocked(query); }
    }

    method GetFirstObject() returns (r: Outcome, p: ObjectPtr?)
      requires Valid()
      modifies this`nbOfLocks, this`holders, this`others
      ensures Valid() && fresh({p} - {null}) && container == old(container) && others == old(others)
      ensures r == GetOutcome(old(nbOfLocks), nbOfBlockedWriters, container != map[])
      ensures (r == Done) == (p != null)
      ensures r == Done && p.pointsToNothing ==> p.Points(this, End) && container == map[]
      ensures r == Done && !p.pointsToNothing ==>
                && p.it.Key? && p.Points(this, p.it) && p.it.index in container
                && forall i :: i in container ==> p.it.index <= i
      ensures holders == old(holders) + (if r == Done && !p.pointsToNothing then {p} else {})
    {
      hide Count;
      LookupIs(container.Keys, First);
      if container.Keys == {} { assert container == map[]; }
      r, p := Get(First);
    }

    method GetObject(index: nat) returns (r: Outcome, p: ObjectPtr?)
      requires Valid() && index <= MAX_INDEX
      modifies this`nbOfLocks, this`holders, this`others
      ensures Valid() && fresh({p} - {null}) && container == old(container) && others == old(others)
      ensures r == GetOutcome(old(nbOfLocks), nbOfBlockedWriters, index in container)
      ensures (r == Done) == (p != null)
      ensures r == Done ==> p.Points(this, if index in container then Key(index) else End)
      ensures holders == old(holders) + (if r == Done && !p.pointsToNothing then {p} else {})
    {
      hide Count;
      r, p := Get(Exactly(index));
    }

    /** GetNextNearestObject: the object with the least index that is not less than `index`. */
    method GetNextNearestObject(index: nat) returns (r: Outcome, p: ObjectPtr?)
      requires Valid() && index <= MAX_INDEX
      modifies this`nbOfLocks, this`holders, this`others
      ensures Valid() && fresh({p} - {null}) && container == old(container) && others == old(others)
      ensures r == GetOutcome(old(nbOfLocks), nbOfBlockedWriters, exists i :: i in container && i >= index)
      ensures (r == Done) == (p != null)
      ensures r == Done && p.pointsToNothing ==> p.Points(this, End) && forall i :: i in container ==> i < index
      ensures r == Done && !p.pointsToNothing ==>
                && p.it.Key? && p.Points(this, p.it) && p.it.index in container && p.it.index >= index
                && forall i :: i in container && i >= index ==> p.it.index <= i
      ensures holders == old(holders) + (if r == Done && !p.pointsToNothing then {p} else {})
    {
      hide Count;
      LookupIs(container.Keys, Nearest(index));
      r, p := Get(Nearest(index));
    }
  }

  datatype Query = First | Exactly(index: nat) | Nearest(index: nat)

  /** The position of the object that is looked up. */
  function Lookup(keys: set<nat>, query: Query): Iterator
  {
    match query
    case First => LowerBound(keys, 0)
    case Exactly(index) => Find(keys, index)
    case Nearest(index) => LowerBound(keys, index)
  }

  lemma LookupIs(keys: set<nat>, query: Query)
    requires forall i :: i in keys ==> i <= MAX_INDEX
    ensures var it := Lookup(keys, query);
            && (it.Key? ==> it.index in keys)
            && (query.First? ==> if it.Key? then forall i :: i in keys ==> it.index <= i else keys == {})
            && (query.Nearest? ==>
                  if it.Key? then it.index >= query.index && forall i :: i in keys && i >= query.index ==> it.index <= i
                  else forall i :: i in keys ==> i < query.index)
  {
    if query.First? { LowerBoundIs(keys, 0); }
    if query.Nearest? { LowerBoundIs(keys, query.index); }
  }

  /** GetNextNearestObject does not find the index itself and goes on behind the one before it. */
  lemma Skipped(keys: set<nat>, index: nat)
    requires index !in keys && index <= MAX_INDEX
    ensures UpperBound(keys, if index == 0 then 0 else index - 1) == LowerBound(keys, index)
  {
  }

  /** The outcome of a look-up when nobody interferes: it takes a read-lock and, if an object is found, one more for the
      pointer. */
  function GetOutcome(nbOfLocks: int, nbOfBlockedWriters: nat, found: bool): Outcome
  {
    if nbOfBlockedWriters != 0 then Waiting
    else if nbOfLocks == INT32_MAX || (found && nbOfLocks == INT32_MAX - 1) then RuntimeError
    else Done
  }

  class ObjectPtr {
    var od: ObjectDictionary?  // the dictionary whose container `it` belongs to
    var it: Iterator
    var pointsToNothing: bool

    /** The state a fresh pointer for an iterator has. */
    ghost predicate Points(d: ObjectDictionary, i: Iterator)
      reads this
    {
      pointsToNothing == (i == End) && (!pointsToNothing ==> od == d && it == i)
    }

    ghost predicate Valid()
      reads this, od
    {
      !pointsToNothing ==> od != null && this in od.holders
    }

    constructor Nothing()
      ensures pointsToNothing
    {
      od, it, pointsToNothing := null, End, true;
    }

    constructor Init(d: ObjectDictionary, i: Iterator)
      ensures !pointsToNothing && od == d && it == i
    {
      od, it, pointsToNothing := d, i, false;
    }

    /** it->second->pOD. */
    method ReferencedOD() returns (d: ObjectDictionary)
      requires Valid() && !pointsToNothing && od.Valid()
      ensures d == od
    {
      hide Count;
      d := od.container[it.index].pOD;
    }

    /** DecReadLock of the dictionary and forgetting about it. */
    method Release()
      requires Valid() && !pointsToNothing && od.Valid()
      modifies this`pointsToNothing, od`nbOfLocks, od`holders
      ensures pointsToNothing && od.Valid() && od.holders == old(od.holders) - {this}
      ensures od.State() == old(od.State()).(nbOfLocks := old(od.nbOfLocks) - 1)
    {
      hide Count, LowerBound, ObjectDictionary.Registered;
      var d := ReferencedOD();
      d.DecReadLock(this);
      pointsToNothing := true;
    }

    /** IncReadLock of the dictionary q points into, and adopting its iterator. */
    method Acquire(q: ObjectPtr) returns (r: Outcome)
      requires pointsToNothing && q.Valid() && !q.pointsToNothing && q.od.Valid() && this !in q.od.holders
      modifies this, q.od`nbOfLocks, q.od`holders, q.od`others
      ensures q.od.Valid() && q.od.holders == old(q.od.holders) + (if r == Done then {this} else {})
      ensures r == Granted(old(q.od.nbOfLocks), q.od.nbOfBlockedWriters)
      ensures q.od.State() == old(q.od.State()).(nbOfLocks := old(q.od.nbOfLocks) + B2I(r == Done))
      ensures pointsToNothing == (r != Done) && (r == Done ==> od == q.od && it == q.it)
    {
      hide Count, LowerBound, ObjectDictionary.Registered;
      od, it := q.od, q.it;
      r := od.IncReadLock();
      if r != Done { return r; }
      pointsToNothing := false;
      od.Join(this);
    }

    /** The copy constructor, for a pointer that points to nothing yet. */
    method CopyConstruct(other: ObjectPtr) returns (r: Outcome)
      requires pointsToNothing && this != other && other.Valid()
      requires !other.pointsToNothing ==> other.od.Valid() && this !in other.od.holders
      modifies this, (if other.pointsToNothing then {} else {other.od})
      ensures r == (if other.pointsToNothing then Done
                    else if other.od.nbOfBlockedWriters != 0 then LogicError
                    else if old(other.od.nbOfLocks) == INT32_MAX then RuntimeError
                    else Done)
      ensures r != Done || other.pointsToNothing ==> pointsToNothing
      ensures !other.pointsToNothing ==>
                && other.od.Valid()
                && other.od.State() == old(other.od.State()).(nbOfLocks := old(other.od.nbOfLocks) + B2I(r == Done))
                && other.od.holders == old(other.od.holders) + (if r == Done then {this} else {})
                && (r == Done ==> !pointsToNothing && od == other.od && it == other.it)
    {
      hide Count, LowerBound, ObjectDictionary.Registered;
      if other.pointsToNothing { return Done; }
      r := Acquire(other);
    }

    /** Copy assignment. */
    method Assign(rhv: ObjectPtr) returns (r: Outcome)
      requires Valid() && rhv.Valid() && (!pointsToNothing ==> od.Valid()) && (!rhv.pointsToNothing ==> rhv.od.Valid())
      requires pointsToNothing && !rhv.pointsToNothing ==> this !in rhv.od.holders
      modifies this, (if pointsToNothing then {} else {od}), (if rhv.pointsToNothing then {} else {rhv.od})
      ensures Valid() && rhv.Valid()
      ensures r == (if this == rhv || old(rhv.pointsToNothing) || (!old(pointsToNothing) && old(od) == old(rhv.od)) then Done
                    else if old(rhv.od.nbOfBlockedWriters) != 0 then LogicError
                    else if old(rhv.od.nbOfLocks) == INT32_MAX then RuntimeError
                    else Done)
      ensures this != rhv ==> rhv.pointsToNothing == old(rhv.pointsToNothing) && rhv.od == old(rhv.od) && rhv.it == old(rhv.it)
      ensures r == Done && this != rhv ==>
                pointsToNothing == rhv.pointsToNothing && (!pointsToNothing ==> od == rhv.od && it == rhv.it)
      ensures r != Done || this == rhv ==>
                pointsToNothing == old(pointsToNothing) && (!pointsToNothing ==> od == old(od) && it == old(it))
      ensures !old(pointsToNothing) ==> Moved(old(od), old(od.holders), old(od.State()), true)
      ensures !old(rhv.pointsToNothing) ==>
                Moved(old(rhv.od), old(rhv.od.holders), old(rhv.od.State()), !old(pointsToNothing) && old(od) == old(rhv.od))
    {
      hide Count, LowerBound, ObjectDictionary.Registered;
      if this == rhv { return Done; }
      if !rhv.pointsToNothing {
        if pointsToNothing {
          r := Acquire(rhv);
        } else {
          var mine := ReferencedOD();
          var its := rhv.ReferencedOD();
          if mine == its {
            // the read-lock it holds will do
            it := rhv.it;
            return Done;
          }
          r := ChangeDictionary(rhv);
        }
      } else {
        if !pointsToNothing { Release(); }
        return Done;
      }
    }

    /** Acquires a read-lock at the other dictionary, then releases the own one. */
    method ChangeDictionary(rhv: ObjectPtr) returns (r: Outcome)
      requires Valid() && rhv.Valid() && !pointsToNothing && !rhv.pointsToNothing && od.Valid() && rhv.od.Valid()
      requires od != rhv.od
      modifies this`od, this`it, od`nbOfLocks, od`holders, rhv.od`nbOfLocks, rhv.od`holders, rhv.od`others
      ensures r == Granted(old(rhv.od.nbOfLocks), rhv.od.nbOfBlockedWriters)
      ensures r == Done ==> !pointsToNothing && od == rhv.od && it == rhv.it
      ensures r != Done ==> !pointsToNothing && od == old(od) && it == old(it)
      ensures Moved(old(od), old(od.holders), old(od.State()), true)
      ensures Moved(rhv.od, old(rhv.od.holders), old(rhv.od.State()), false)
      ensures rhv.od == old(rhv.od) && rhv in rhv.od.holders
    {
      hide Count, LowerBound, ObjectDictionary.Registered;
      var mine, its := od, rhv.od;
      assert this !in its.holders;
      r := its.IncReadLock();
      if r != Done { return r; }
      mine.DecReadLock(this);
      od, it := rhv.od, rhv.it;
      its.Join(this);
    }

    ghost predicate Inside(d: ObjectDictionary)
      reads this
    {
      !pointsToNothing && od == d
    }

    /** Of a dictionary, only the place of this pointer among the holders of read-locks has changed; `was` if it has
        been among them before. */
    ghost predicate Moved(d: ObjectDictionary, holders: set<ObjectPtr>, before: DictState, was: bool)
      reads this, d, d.container.Values, d.holders
    {
      && d.Valid() && d.State() == before.(nbOfLocks := before.nbOfLocks - B2I(was) + B2I(Inside(d)))
      && d.holders - {this} == holders - {this}
      && (this in d.holders <==> Inside(d))
    }

    /** Of a dictionary, only the places of this pointer and q among the holders of read-locks have changed; `was` of
        them have been among them before. */
    ghost predicate Handed(d: ObjectDictionary, q: ObjectPtr, holders: set<ObjectPtr>, before: DictState, was: int)
      reads this, q, d, d.container.Values, d.holders
    {
      && d.Valid() && d.State() == before.(nbOfLocks := before.nbOfLocks - was + B2I(Inside(d)) + B2I(q.Inside(d)))
      && d.holders - {this, q} == holders - {this, q}
      && (this in d.holders <==> Inside(d))
      && (q in d.holders <==> q.Inside(d))
    }

    method TakeOver(rhv: ObjectPtr)
      requires pointsToNothing && this != rhv && rhv.Valid() && !rhv.pointsToNothing && rhv.od.Valid()
      requires this !in rhv.od.holders
      modifies this, rhv`pointsToNothing, rhv.od`holders
      ensures rhv.pointsToNothing && !pointsToNothing && od == rhv.od == old(rhv.od) && it == old(rhv.it)
      ensures od.Valid() && od.State() == old(rhv.od.State()) && od.holders == old(rhv.od.holders) - {rhv} + {this}
    {
      hide Count, LowerBound, ObjectDictionary.Registered;
      od, it, pointsToNothing := rhv.od, rhv.it, false;
      od.HandOver(rhv, this);
      rhv.pointsToNothing := true;
    }

    /** Move construction and move assignment: the read-lock goes over to this pointer. */
    method MoveAssign(rhv: ObjectPtr)
      requires Valid() && rhv.Valid() && (!pointsToNothing ==> od.Valid()) && (!rhv.pointsToNothing ==> rhv.od.Valid())
      requires pointsToNothing && !rhv.pointsToNothing ==> this !in rhv.od.holders
      modifies this, rhv, (if pointsToNothing then {} else {od}), (if rhv.pointsToNothing then {} else {rhv.od})
      ensures Valid() && rhv.Valid()
      ensures this != rhv ==>
                && rhv.pointsToNothing && pointsToNothing == old(rhv.pointsToNothing)
                && (!pointsToNothing ==> od == old(rhv.od) && it == old(rhv.it))
      ensures this == rhv ==> pointsToNothing == old(pointsToNothing) && od == old(od) && it == old(it)
      ensures this == rhv && !pointsToNothing ==> od.Valid() && od.State() == old(od.State()) && od.holders == old(od.holders)
      ensures this != rhv && !old(pointsToNothing) ==>
                Handed(old(od), rhv, old(od.holders), old(od.State()), 1 + B2I(old(rhv.Inside(od))))
      ensures this != rhv && !old(rhv.pointsToNothing) ==>
                Handed(old(rhv.od), rhv, old(rhv.od.holders), old(rhv.od.State()), 1 + B2I(old(Inside(rhv.od))))
    {
      hide Count, LowerBound, ObjectDictionary.Registered;
      if this == rhv { return; }
      if !rhv.pointsToNothing {
        if !pointsToNothing { Release(); }
        TakeOver(rhv);
      } else {
        if !pointsToNothing { Release(); }
      }
    }

    /** ++: the next object in the order of indices, or nothing behind the last one. */
    method Increment() returns (r: Outcome)
      requires Valid() && (!pointsToNothing ==> od.Valid())
      modifies this, (if pointsToNothing then {} else {od})
      ensures Valid()
      ensures r == if old(pointsToNothing) then LogicError else Done
      ensures old(pointsToNothing) ==> pointsToNothing
      ensures !old(pointsToNothing) ==>
                var d, next := old(od), UpperBound(old(od.container.Keys), old(it.index));
                && Moved(d, old(od.holders), old(od.State()), true)
                && pointsToNothing == (next == End) && (!pointsToNothing ==> od == d && it == next)
                && (pointsToNothing ==> forall i :: i in d.container ==> i <= old(it.index))
                && (!pointsToNothing ==>
                      && it.Key? && it.index in d.container && it.index > old(it.index)
                      && forall i :: i in d.container && i > old(it.index) ==> it.index <= i)
    {
      hide Count, LowerBound;
      if pointsToNothing { return LogicError; }
      var pOD := ReferencedOD();
      LowerBoundIs(pOD.container.Keys, it.index + 1);
      var next := UpperBound(pOD.container.Keys, it.index);
      if next == End {
        pOD.DecReadLock(this);
        pointsToNothing := true;
      }
      it := next;
      return Done;
    }

    /** Reset, and the destructor. */
    method Reset()
      requires Valid() && (!pointsToNothing ==> od.Valid())
      modifies this, (if pointsToNothing then {} else {od})
      ensures Valid() && pointsToNothing
      ensures !old(pointsToNothing) ==> Moved(old(od), old(od.holders), old(od.State()), true)
    {
      hide Count, LowerBound, ObjectDictionary.Registered;
      if !pointsToNothing { Release(); }
    }

    /** Dereferencing: a registered object that has not been deleted. */
    method Deref() returns (r: Outcome, o: CodObject?)
      requires Valid() && (!pointsToNothing ==> od.Valid())
      ensures r == if pointsToNothing then RuntimeError else Done
      ensures r == Done ==> o != null && o in od.container.Values && o.pOD == od && o.index == it.index && !o.deleted
    {
      hide Count;
      if pointsToNothing { return RuntimeError, null; }
      return Done, od.container[it.index];
    }
  }

  /** The failing copy, reached from an empty dictionary: a pointer is held, a writer waits, a copy is refused. */
  method CopyWhileWriterWaits() returns (added: Outcome, copied: Outcome)
    ensures added == Waiting && copied == LogicError
  {
    hide Count, Lookup, LowerBound, ObjectDictionary.Valid;
    var d := new ObjectDictionary();
    var obj := new CodObject();
    Unlocked(d);
    var r := d.Add(obj, 1, false);
    var p;
    r, p := d.GetObject(1);
    obj := new CodObject();
    added := d.Add(obj, 2, false);
    var q := new ObjectPtr.Nothing();
    copied := q.CopyConstruct(p);
  }

  lemma Unlocked(d: ObjectDictionary)
    requires d.Valid() && d.holders == {} && d.others == 0
    ensures d.nbOfLocks == 0
  {
    NoPtrs({});
  }
}
