/** FileMutex (server/src/file_mutex.cpp) as an interleaved machine: any number of threads, one step at a time.
    Taking and dropping `map_mutex_`, the map lookup, blocking on a file's shared mutex, unlocking, decrementing
    and each erase of the cleanup loop are separate steps. */
module FileMutexMachine {
  import opened Bytes

  type Tid = nat
  type Path = string

  datatype Mode = Read | Write

  /** A `std::shared_mutex`. Plain integers, so that an unmatched unlock would show up as a negative count. */
  datatype Rw = Rw(readers: int, writer: bool)

  const FREE: Rw := Rw(0, false)

  datatype Entry = Entry(mtx: nat, count: int)

  /** Where a thread is. `mtx` records which mutex object it was handed; release_* itself only knows the path. */
  datatype Pc =
    | Idle
    | GetWait(path: Path, mode: Mode)                 // get_or_create: waiting for map_mutex_
    | GetLocked(path: Path, mode: Mode)               // get_or_create: owns map_mutex_
    | GetDone(path: Path, mode: Mode, mtx: nat)       // counted in; map_mutex_ about to be dropped
    | LockWait(path: Path, mode: Mode, mtx: nat)      // blocked in lock() or lock_shared()
    | Holding(path: Path, mode: Mode, mtx: nat)       // between acquire_* and release_*
    | RelWait(path: Path, mode: Mode, mtx: nat)       // release_*: waiting for map_mutex_
    | RelLocked(path: Path, mode: Mode, mtx: nat)     // release_*: owns map_mutex_
    | RelUnlocked(path: Path, mode: Mode, mtx: nat)   // unlocked, count not yet decremented
    | RelDone
    | CleanWait                                       // cleanup_unused: waiting for map_mutex_
    | CleanScan(todo: set<Path>)                      // cleanup_unused: entries still to visit

  datatype State = State(
    mapOwner: Option<Tid>,
    entries: map<Path, Entry>,
    objects: map<nat, Rw>,
    threads: map<Tid, Pc>)

  datatype Action =
    | StartAcquire(path: Path, mode: Mode)
    | StartCleanup
    | TakeMap
    | Lookup(newId: nat)
    | DropMap
    | Grant
    | StartRelease
    | Find
    | Decrement
    | Scan(victim: Path)

  function ObjectAt(objects: map<nat, Rw>, id: nat): Rw {
    if id in objects then objects[id] else FREE
  }

  predicate Grantable(rw: Rw, m: Mode) {
    match m case Read => !rw.writer case Write => !rw.writer && rw.readers == 0
  }

  function Locked(rw: Rw, m: Mode): Rw {
    match m case Read => Rw(rw.readers + 1, rw.writer) case Write => Rw(rw.readers, true)
  }

  function Unlocked(rw: Rw, m: Mode): Rw {
    match m case Read => Rw(rw.readers - 1, rw.writer) case Write => Rw(rw.readers, false)
  }

  // ---- The critical sections on the map (shared with the FileMutex class) -----

  function LookupEntry(entries: map<Path, Entry>, p: Path, newId: nat): Entry {
    if p in entries then entries[p].(count := entries[p].count + 1) else Entry(newId, 1)
  }

  function DecrementEntry(entries: map<Path, Entry>, p: Path): map<Path, Entry> {
    if p in entries then entries[p := entries[p].(count := entries[p].count - 1)] else entries
  }

  function ScanEntry(entries: map<Path, Entry>, p: Path): map<Path, Entry> {
    if p in entries && entries[p].count <= 0 then entries - {p} else entries
  }

  // ---- Steps --------------------------------------------------------------

  predicate Enabled(s: State, t: Tid, a: Action) {
    t in s.threads &&
    var pc := s.threads[t];
    match a
    case StartAcquire(_, _) => pc.Idle?
    case StartCleanup => pc.Idle?
    case TakeMap => s.mapOwner.None? && (pc.GetWait? || pc.RelWait? || pc.CleanWait?)
    case Lookup(newId) => pc.GetLocked? && newId !in s.objects
    case DropMap => pc.GetDone? || pc.RelDone? || (pc.CleanScan? && pc.todo == {})
    case Grant => pc.LockWait? && Grantable(ObjectAt(s.objects, pc.mtx), pc.mode)
    case StartRelease => pc.Holding?
    case Find => pc.RelLocked?
    case Decrement => pc.RelUnlocked?
    case Scan(p) => pc.CleanScan? && p in pc.todo
  }

  function Goto(s: State, t: Tid, pc: Pc): State {
    s.(threads := s.threads[t := pc])
  }

  function Apply(s: State, t: Tid, a: Action): State
    requires Enabled(s, t, a)
  {
    var pc := s.threads[t];
    match a
    case StartAcquire(p, m) => Goto(s, t, GetWait(p, m))
    case StartCleanup => Goto(s, t, CleanWait)
    case TakeMap =>
      var next := match pc
        case GetWait(p, m) => GetLocked(p, m)
        case RelWait(p, m, x) => RelLocked(p, m, x)
        case _ => CleanScan(s.entries.Keys);
      Goto(s, t, next).(mapOwner := Some(t))
    case Lookup(newId) =>
      var e := LookupEntry(s.entries, pc.path, newId);
      var objects := if pc.path in s.entries then s.objects else s.objects[newId := FREE];
      Goto(s, t, GetDone(pc.path, pc.mode, e.mtx)).(entries := s.entries[pc.path := e], objects := objects)
    case DropMap =>
      Goto(s, t, if pc.GetDone? then LockWait(pc.path, pc.mode, pc.mtx) else Idle).(mapOwner := None)
    case Grant =>
      Goto(s, t, Holding(pc.path, pc.mode, pc.mtx))
        .(objects := s.objects[pc.mtx := Locked(ObjectAt(s.objects, pc.mtx), pc.mode)])
    case StartRelease => Goto(s, t, RelWait(pc.path, pc.mode, pc.mtx))
    case Find =>
      if pc.path !in s.entries then Goto(s, t, RelDone) else
        var x := s.entries[pc.path].mtx;
        Goto(s, t, RelUnlocked(pc.path, pc.mode, pc.mtx))
          .(objects := s.objects[x := Unlocked(ObjectAt(s.objects, x), pc.mode)])
    case Decrement => Goto(s, t, RelDone).(entries := DecrementEntry(s.entries, pc.path))
    case Scan(p) => Goto(s, t, CleanScan(pc.todo - {p})).(entries := ScanEntry(s.entries, p))
  }

  /** An interleaving: which thread does what, in order. */
  type Schedule = seq<(Tid, Action)>

  ghost predicate Runs(s: State, sched: Schedule)
    decreases |sched|
  {
    sched != [] ==> Enabled(s, sched[0].0, sched[0].1) && Runs(Apply(s, sched[0].0, sched[0].1), sched[1..])
  }

  ghost function After(s: State, sched: Schedule): State
    requires Runs(s, sched)
    decreases |sched|
  {
    if sched == [] then s else After(Apply(s, sched[0].0, sched[0].1), sched[1..])
  }

  predicate Initial(s: State) {
    s.mapOwner.None? && s.entries == map[] && forall t :: t in s.threads ==> s.threads[t] == Idle
  }

  // ---- The inductive invariant ------------------------------------------------

  predicate OwnsMap(pc: Pc) {
    pc.GetLocked? || pc.GetDone? || pc.RelLocked? || pc.RelUnlocked? || pc.RelDone? || pc.CleanScan?
  }

  /** The three ways a thread can count towards the bookkeeping of a path. */
  datatype Role = Counted | Reader | Writer

  predicate Plays(pc: Pc, p: Path, r: Role) {
    match r
    case Counted =>
      (pc.GetDone? || pc.LockWait? || pc.Holding? || pc.RelWait? || pc.RelLocked? || pc.RelUnlocked?) && pc.path == p
    case Reader => Holds(pc) && pc.path == p && pc.mode == Read
    case Writer => Holds(pc) && pc.path == p && pc.mode == Write
  }

  /** Holding the file lock, from the grant until the unlock inside release_*. */
  predicate Holds(pc: Pc) {
    pc.Holding? || pc.RelWait? || pc.RelLocked?
  }

  ghost function Players(threads: map<Tid, Pc>, p: Path, r: Role): set<Tid> {
    set t | t in threads && Plays(threads[t], p, r)
  }

  ghost function Count(threads: map<Tid, Pc>, p: Path, r: Role): nat {
    |Players(threads, p, r)|
  }

  function Bit(b: bool): nat { if b then 1 else 0 }

  lemma CountUpdate(threads: map<Tid, Pc>, t: Tid, pc: Pc, p: Path, r: Role)
    requires t in threads
    ensures Count(threads[t := pc], p, r) == Count(threads, p, r) - Bit(Plays(threads[t], p, r)) + Bit(Plays(pc, p, r))
  {
    hide Plays;
    var before, after := Players(threads, p, r), Players(threads[t := pc], p, r);
    assert before - {t} == after - {t};
    assert |before - {t}| == |before| - Bit(t in before);
    assert |after - {t}| == |after| - Bit(t in after);
  }

  lemma SomePlayer(threads: map<Tid, Pc>, p: Path, r: Role)
    ensures Count(threads, p, r) > 0 <==> exists u :: u in threads && Plays(threads[u], p, r)
  {
    hide Plays;
    var players := Players(threads, p, r);
    if players != {} {
      var u :| u in players;
    } else {
      assert forall u :: u in threads && Plays(threads[u], p, r) ==> u in players;
    }
  }

  /** A thread that is counted in refers to the very object that the map holds for its path. */
  ghost predicate ThreadOk(s: State, t: Tid)
    requires t in s.threads
  {
    var pc := s.threads[t];
    && (OwnsMap(pc) <==> s.mapOwner == Some(t))
    && (forall p :: Plays(pc, p, Counted) ==> p in s.entries && s.entries[p].mtx == pc.mtx)
  }

  /** `active_count` is the number of counted-in threads, and the object's own state is that of its holders. */
  ghost predicate EntryOk(s: State, p: Path)
    requires p in s.entries
  {
    var e := s.entries[p];
    && e.mtx in s.objects
    && e.count == Count(s.threads, p, Counted)
    && var rw := s.objects[e.mtx];
       && rw.readers == Count(s.threads, p, Reader)
       && Bit(rw.writer) == Count(s.threads, p, Writer)
       && (rw.writer ==> rw.readers == 0)
  }

  ghost predicate Distinct(s: State) {
    forall p, q :: p in s.entries && q in s.entries && p != q ==> s.entries[p].mtx != s.entries[q].mtx
  }

  ghost predicate Inv(s: State) {
    && (s.mapOwner.Some? ==> s.mapOwner.value in s.threads)
    && Distinct(s)
    && (forall t :: t in s.threads ==> ThreadOk(s, t))
    && (forall p :: p in s.entries ==> EntryOk(s, p))
  }

  lemma InitialInv(s: State)
    requires Initial(s)
    ensures Inv(s)
  {
  }

  lemma Counts(s: State, t: Tid, pc: Pc, p: Path)
    requires t in s.threads
    ensures var old', new' := s.threads, s.threads[t := pc];
            && Count(new', p, Counted) == Count(old', p, Counted) - Bit(Plays(old'[t], p, Counted)) + Bit(Plays(pc, p, Counted))
            && Count(new', p, Reader) == Count(old', p, Reader) - Bit(Plays(old'[t], p, Reader)) + Bit(Plays(pc, p, Reader))
            && Count(new', p, Writer) == Count(old', p, Writer) - Bit(Plays(old'[t], p, Writer)) + Bit(Plays(pc, p, Writer))
  {
    CountUpdate(s.threads, t, pc, p, Counted);
    CountUpdate(s.threads, t, pc, p, Reader);
    CountUpdate(s.threads, t, pc, p, Writer);
  }

  /** A path nobody is counted in for has no players in any role. */
  lemma NoPlayers(s: State, p: Path, r: Role)
    requires forall t :: t in s.threads ==> !Plays(s.threads[t], p, Counted)
    ensures Count(s.threads, p, r) == 0
  {
    assert Players(s.threads, p, r) == {};
  }

  /** Lookup, grant, find and decrement, seen at the path they work on. */
  predicate Touches(a: Action) {
    a.Lookup? || a.Grant? || a.Find? || a.Decrement?
  }

  lemma LookupEntryOk(s: State, t: Tid, a: Action)
    requires Inv(s) && Enabled(s, t, a) && a.Lookup?
    ensures EntryOk(Apply(s, t, a), s.threads[t].path)
  {
    var p := s.threads[t].path;
    Counts(s, t, Apply(s, t, a).threads[t], p);
    if p in s.entries {
      assert EntryOk(s, p);
    } else {
      forall u | u in s.threads ensures !Plays(s.threads[u], p, Counted) { assert ThreadOk(s, u); }
      NoPlayers(s, p, Counted);
      NoPlayers(s, p, Reader);
      NoPlayers(s, p, Writer);
    }
  }

  lemma TouchedEntryOk(s: State, t: Tid, a: Action)
    requires Inv(s) && Enabled(s, t, a) && Touches(a) && !a.Lookup?
    ensures var p := s.threads[t].path; p in Apply(s, t, a).entries && EntryOk(Apply(s, t, a), p)
  {
    var p := s.threads[t].path;
    hide Count;
    Counts(s, t, Apply(s, t, a).threads[t], p);
    assert ThreadOk(s, t);
    assert Plays(s.threads[t], p, Counted);
    assert EntryOk(s, p);
  }

  lemma OtherEntryOk(s: State, t: Tid, a: Action, p: Path)
    requires Inv(s) && Enabled(s, t, a) && p in Apply(s, t, a).entries
    requires Touches(a) ==> s.threads[t].path != p
    ensures EntryOk(Apply(s, t, a), p)
  {
    hide Count;
    Counts(s, t, Apply(s, t, a).threads[t], p);
    assert ThreadOk(s, t);
    assert EntryOk(s, p);
    if a.Grant? || a.Find? {
      assert Plays(s.threads[t], s.threads[t].path, Counted);
      assert s.entries[s.threads[t].path].mtx != s.entries[p].mtx;
    }
  }

  lemma EntriesAfter(s: State, t: Tid, a: Action, p: Path)
    requires Inv(s) && Enabled(s, t, a) && p in Apply(s, t, a).entries
    ensures EntryOk(Apply(s, t, a), p)
  {
    if !Touches(a) || s.threads[t].path != p {
      OtherEntryOk(s, t, a, p);
    } else if a.Lookup? {
      LookupEntryOk(s, t, a);
    } else {
      TouchedEntryOk(s, t, a);
    }
  }

  /** A counted-in thread's entry survives every step, with the same mutex object. */
  lemma EntryKept(s: State, t: Tid, a: Action, u: Tid, p: Path)
    requires Inv(s) && Enabled(s, t, a) && u in s.threads && Plays(s.threads[u], p, Counted)
    ensures p in s.entries && p in Apply(s, t, a).entries && Apply(s, t, a).entries[p].mtx == s.entries[p].mtx
  {
    assert ThreadOk(s, u) && EntryOk(s, p);
    assert u in Players(s.threads, p, Counted);
  }

  lemma ThreadsAfter(s: State, t: Tid, a: Action, u: Tid)
    requires Inv(s) && Enabled(s, t, a) && u in s.threads
    ensures ThreadOk(Apply(s, t, a), u)
  {
    assert ThreadOk(s, t) && ThreadOk(s, u);
    var s' := Apply(s, t, a);
    forall p | Plays(s'.threads[u], p, Counted) ensures p in s'.entries && s'.entries[p].mtx == s'.threads[u].mtx {
      if Plays(s.threads[u], p, Counted) {
        EntryKept(s, t, a, u, p);
      }
    }
  }

  lemma DistinctAfter(s: State, t: Tid, a: Action)
    requires Inv(s) && Enabled(s, t, a)
    ensures Distinct(Apply(s, t, a))
  {
    forall p | p in s.entries ensures s.entries[p].mtx in s.objects { assert EntryOk(s, p); }
  }

  lemma StepInv(s: State, t: Tid, a: Action)
    requires Inv(s) && Enabled(s, t, a)
    ensures Inv(Apply(s, t, a))
  {
    var s' := Apply(s, t, a);
    DistinctAfter(s, t, a);
    forall u | u in s'.threads ensures ThreadOk(s', u) { ThreadsAfter(s, t, a, u); }
    forall p | p in s'.entries ensures EntryOk(s', p) { EntriesAfter(s, t, a, p); }
  }

  lemma {:induction false} RunInv(s: State, sched: Schedule)
    requires Inv(s) && Runs(s, sched)
    ensures Inv(After(s, sched))
    decreases |sched|
  {
    if sched != [] {
      StepInv(s, sched[0].0, sched[0].1);
      RunInv(Apply(s, sched[0].0, sched[0].1), sched[1..]);
    }
  }

  // ---- Safety over every interleaving -----------------------------------------

  /** Exclusion: on no interleaving does a writer of a path coexist with any other holder of that path,
      across cleanup and re-creation of its entry. */
  lemma Exclusion(s: State, sched: Schedule, t: Tid, u: Tid)
    requires Initial(s) && Runs(s, sched)
    requires var end := After(s, sched).threads;
             t in end && u in end && t != u && Holds(end[t]) && Holds(end[u]) && end[t].path == end[u].path
    ensures After(s, sched).threads[t].mode == Read && After(s, sched).threads[u].mode == Read
  {
    InitialInv(s);
    RunInv(s, sched);
    var end := After(s, sched);
    HoldersExclude(end, t, u);
    HoldersExclude(end, u, t);
  }

  lemma HoldersExclude(s: State, t: Tid, u: Tid)
    requires Inv(s) && t in s.threads && u in s.threads && t != u
    requires Holds(s.threads[t]) && Holds(s.threads[u]) && s.threads[t].path == s.threads[u].path
    ensures s.threads[t].mode == Read
  {
    var p := s.threads[t].path;
    assert ThreadOk(s, t);
    assert Plays(s.threads[t], p, Counted);
    assert EntryOk(s, p);
    var writers, readers := Players(s.threads, p, Writer), Players(s.threads, p, Reader);
    AtMostOne(writers, t, u);
    assert u in readers || u in writers;
    assert s.threads[t].mode == Write <==> t in writers;
  }

  lemma AtMostOne(w: set<Tid>, t: Tid, u: Tid)
    requires |w| <= 1 && t != u
    ensures !(t in w && u in w)
  {
    if t in w {
      assert |w - {t}| == 0;
    }
  }

  /** Every release finds the entry it acquired, unlocks the object it locked, in the mode it locked it. */
  lemma ReleaseIsMatched(s: State, sched: Schedule, t: Tid)
    requires Initial(s) && Runs(s, sched) && t in After(s, sched).threads
    requires Holds(After(s, sched).threads[t])
    ensures var end := After(s, sched);
            var pc := end.threads[t];
            && pc.path in end.entries
            && end.entries[pc.path].mtx == pc.mtx
            && end.entries[pc.path].count > 0
            && pc.mtx in end.objects
            && (if pc.mode == Read then end.objects[pc.mtx].readers > 0 else end.objects[pc.mtx].writer)
  {
    InitialInv(s);
    RunInv(s, sched);
    var end := After(s, sched);
    var p := end.threads[t].path;
    assert ThreadOk(end, t);
    assert Plays(end.threads[t], p, Counted);
    assert EntryOk(end, p);
    assert t in Players(end.threads, p, Counted);
    assert t in Players(end.threads, p, if end.threads[t].mode == Read then Reader else Writer);
  }

  /** What cleanup erases is an unlocked mutex that no thread waits for, holds or is about to lock. */
  lemma CleanupIsSafe(s: State, sched: Schedule, t: Tid, p: Path)
    requires Initial(s) && Runs(s, sched) && Enabled(After(s, sched), t, Scan(p))
    requires p in After(s, sched).entries && p !in Apply(After(s, sched), t, Scan(p)).entries
    ensures var end := After(s, sched);
            && end.entries[p].mtx in end.objects
            && end.objects[end.entries[p].mtx] == FREE
            && forall u :: u in end.threads ==> !Plays(end.threads[u], p, Counted)
  {
    InitialInv(s);
    RunInv(s, sched);
    var end := After(s, sched);
    assert EntryOk(end, p);
    assert Players(end.threads, p, Counted) == {};
    forall u | u in end.threads ensures !Plays(end.threads[u], p, Counted) {
      assert u !in Players(end.threads, p, Counted);
    }
    NoPlayers(end, p, Reader);
    NoPlayers(end, p, Writer);
  }

  /** And it erases every entry that it visits and that no thread is counted in for. */
  lemma CleanupIsThorough(s: State, sched: Schedule, t: Tid, p: Path)
    requires Initial(s) && Runs(s, sched) && Enabled(After(s, sched), t, Scan(p))
    ensures var end := After(s, sched);
            p in Apply(end, t, Scan(p)).entries <==> exists u :: u in end.threads && Plays(end.threads[u], p, Counted)
  {
    InitialInv(s);
    RunInv(s, sched);
    hide Runs, After, Inv, Initial, Plays, Apply;
    ScanIff(After(s, sched), t, p);
  }

  lemma ScanIff(s: State, t: Tid, p: Path)
    requires Inv(s) && Enabled(s, t, Scan(p))
    ensures p in Apply(s, t, Scan(p)).entries <==> exists u :: u in s.threads && Plays(s.threads[u], p, Counted)
  {
    hide Plays, Count;
    SomePlayer(s.threads, p, Counted);
    if p in s.entries {
      assert EntryOk(s, p);
    } else {
      forall u | u in s.threads ensures !Plays(s.threads[u], p, Counted) { assert ThreadOk(s, u); }
    }
  }
}
