/** The FileMutex object itself: what each of its critical sections under `map_mutex_` does to its fields.
    FileMutexMachine interleaves exactly these effects. */
module FileMutexObject {
  import opened FileMutexMachine

  /** The map after a whole cleanup pass. */
  ghost function Cleaned(entries: map<Path, Entry>): map<Path, Entry> {
    map p | p in entries && entries[p].count > 0 :: entries[p]
  }

  class FileMutex {
    var mutexMap: map<Path, Entry>
    var objects: map<nat, Rw>

    ghost predicate Valid()
      reads this
    {
      forall p :: p in mutexMap ==> mutexMap[p].mtx in objects
    }

    constructor ()
      ensures Valid() && mutexMap == map[] && objects == map[]
    {
      mutexMap, objects := map[], map[];
    }

    /** `newId` names the object that make_shared would allocate. */
    method GetOrCreate(path: Path, newId: nat) returns (mtx: nat)
      requires Valid() && newId !in objects
      modifies this
      ensures Valid()
      ensures mutexMap == old(mutexMap)[path := LookupEntry(old(mutexMap), path, newId)]
      ensures objects == if path in old(mutexMap) then old(objects) else old(objects)[newId := FREE]
      ensures mtx == mutexMap[path].mtx
    {
      if path in mutexMap {
        var e := mutexMap[path];
        mutexMap := mutexMap[path := Entry(e.mtx, e.count + 1)];
        return e.mtx;
      }
      objects := objects[newId := Rw(0, false)];
      mutexMap := mutexMap[path := Entry(newId, 1)];
      return newId;
    }

    method ReleaseRead(path: Path)
      requires Valid()
      modifies this
      ensures Valid()
      ensures mutexMap == DecrementEntry(old(mutexMap), path)
      ensures objects == if path !in old(mutexMap) then old(objects) else
                           var x := old(mutexMap)[path].mtx;
                           old(objects)[x := Unlocked(ObjectAt(old(objects), x), Read)]
    {
      if path in mutexMap {
        var e := mutexMap[path];
        objects := objects[e.mtx := Rw(objects[e.mtx].readers - 1, objects[e.mtx].writer)];
        mutexMap := mutexMap[path := Entry(e.mtx, e.count - 1)];
      }
    }

    method ReleaseWrite(path: Path)
      requires Valid()
      modifies this
      ensures Valid()
      ensures mutexMap == DecrementEntry(old(mutexMap), path)
      ensures objects == if path !in old(mutexMap) then old(objects) else
                           var x := old(mutexMap)[path].mtx;
                           old(objects)[x := Unlocked(ObjectAt(old(objects), x), Write)]
    {
      if path in mutexMap {
        var e := mutexMap[path];
        objects := objects[e.mtx := Rw(objects[e.mtx].readers, false)];
        mutexMap := mutexMap[path := Entry(e.mtx, e.count - 1)];
      }
    }

    method CleanupUnused()
      requires Valid()
      modifies this`mutexMap
      ensures Valid()
      ensures mutexMap == Cleaned(old(mutexMap))
    {
      var todo := mutexMap.Keys;
      while todo != {}
        invariant todo <= old(mutexMap).Keys
        invariant mutexMap == map p | p in old(mutexMap) && (p in todo || old(mutexMap)[p].count > 0) :: old(mutexMap)[p]
        decreases |todo|
      {
        var p :| p in todo;
        if mutexMap[p].count <= 0 {
          mutexMap := mutexMap - {p};
        }
        todo := todo - {p};
      }
    }
  }

  /** Visiting the entries one by one, in any order, is one cleanup pass. */
  ghost function ScanAll(entries: map<Path, Entry>, order: seq<Path>): map<Path, Entry> {
    if order == [] then entries else ScanAll(ScanEntry(entries, order[0]), order[1..])
  }

  lemma {:induction false} ScanAllIsCleaned(entries: map<Path, Entry>, order: seq<Path>)
    requires forall p :: p in entries && entries[p].count <= 0 ==> p in order
    ensures ScanAll(entries, order) == Cleaned(entries)
    decreases |order|
  {
    if order == [] {
      assert Cleaned(entries) == entries;
    } else {
      ScanAllIsCleaned(ScanEntry(entries, order[0]), order[1..]);
    }
  }
}
