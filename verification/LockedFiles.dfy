/** The lock table and the store side by side: what the locks around block reads and block writes protect, and what they do
    not. Block writes happen between `acquire_write` and `release_write`; the renames that publish a file, and the
    whole-file writes of uploads, happen in threads that hold no lock. */
module LockedFiles {
  import opened Bytes
  import opened Storage
  import opened FileMutexMachine

  datatype World = World(locks: FileMutexMachine.State, files: Files)

  datatype Act =
    | LockAct(tid: Tid, action: Action)
    | WriteAct(tid: Tid, offset: nat, data: seq<byte>)   // write_block_atomic, under the write lock of the path
    | SaveAct(tid: Tid, path: Storage.Path, data: seq<byte>)     // write_file_atomic of an upload
    | RenameAct(tid: Tid, path: Storage.Path)                    // atomic_rename_tmp, after the lock was released or never taken

  predicate Possible(w: World, a: Act) {
    match a
    case LockAct(t, x) => Enabled(w.locks, t, x)
    case WriteAct(t, _, _) => t in w.locks.threads && w.locks.threads[t].Holding? && w.locks.threads[t].mode == Write
    case SaveAct(t, _, _) => t in w.locks.threads && w.locks.threads[t].Idle?
    case RenameAct(t, _) => t in w.locks.threads && w.locks.threads[t].Idle?
  }

  /** What the step does to the store, if anything. */
  function OpOf(w: World, a: Act): Option<Op>
    requires Possible(w, a)
  {
    match a
    case LockAct(_, _) => None
    case WriteAct(t, offset, data) => Some(BlockOp(w.locks.threads[t].path, offset, data))
    case SaveAct(_, p, data) => Some(FileOp(p, data))
    case RenameAct(_, p) => Some(RenameOp(p))
  }

  function Next(w: World, a: Act): World
    requires Possible(w, a)
  {
    if a.LockAct? then w.(locks := Apply(w.locks, a.tid, a.action))
    else w.(files := Storage.Step(w.files, OpOf(w, a).value))
  }

  ghost predicate Goes(w: World, acts: seq<Act>)
    decreases |acts|
  {
    acts != [] ==> Possible(w, acts[0]) && Goes(Next(w, acts[0]), acts[1..])
  }

  ghost function Then(w: World, acts: seq<Act>): World
    requires Goes(w, acts)
    decreases |acts|
  {
    if acts == [] then w else Then(Next(w, acts[0]), acts[1..])
  }

  /** All paths worked on are targets, not temp files. */
  predicate Targets(w: World, a: Act)
    requires Possible(w, a)
  {
    OpOf(w, a).Some? ==> !EndsWithTmp(OpOf(w, a).value.path)
  }

  ghost predicate AllTargets(w: World, acts: seq<Act>)
    requires Goes(w, acts)
    decreases |acts|
  {
    acts != [] ==> Targets(w, acts[0]) && AllTargets(Next(w, acts[0]), acts[1..])
  }

  lemma {:induction false} LocksInv(w: World, acts: seq<Act>)
    requires Inv(w.locks) && Goes(w, acts)
    ensures Inv(Then(w, acts).locks)
    decreases |acts|
  {
    hide Inv;
    if acts != [] {
      if acts[0].LockAct? {
        StepInv(w.locks, acts[0].tid, acts[0].action);
      }
      LocksInv(Next(w, acts[0]), acts[1..]);
    }
  }

  /** What the locks do: on every run, while a thread may write a block of a path, no other thread holds that path, be it to
      write a block or to compare blocks. */
  lemma WritesAreExclusive(w: World, acts: seq<Act>, a: Act, u: Tid)
    requires Initial(w.locks) && Goes(w, acts) && Possible(Then(w, acts), a) && a.WriteAct?
    requires var threads := Then(w, acts).locks.threads;
             u in threads && u != a.tid && Holds(threads[u])
    ensures var threads := Then(w, acts).locks.threads; threads[u].path != threads[a.tid].path
  {
    InitialInv(w.locks);
    LocksInv(w, acts);
    var s := Then(w, acts).locks;
    hide Inv, Goes, Then;
    if s.threads[u].path == s.threads[a.tid].path {
      HoldersExclude(s, a.tid, u);
    }
  }

  /** What they do not do. On every run without a rename of `p`, with or without locks, the content of `p` stays as it is:
      a comparison then sees one version of the file. */
  lemma {:induction false} OneVersionWithoutRename(w: World, acts: seq<Act>, p: Storage.Path)
    requires Goes(w, acts) && AllTargets(w, acts) && !EndsWithTmp(p)
    requires forall i :: 0 <= i < |acts| && acts[i].RenameAct? ==> acts[i].path != p
    ensures Content(Then(w, acts).files, p) == Content(w.files, p)
    decreases |acts|
  {
    if acts != [] {
      OneStepKeeps(w, acts[0], p);
      hide Next, Content;
      OneVersionWithoutRename(Next(w, acts[0]), acts[1..], p);
    }
  }

  lemma OneStepKeeps(w: World, a: Act, p: Storage.Path)
    requires Possible(w, a) && Targets(w, a) && !EndsWithTmp(p) && (a.RenameAct? ==> a.path != p)
    ensures Content(Next(w, a).files, p) == Content(w.files, p)
  {
    if !a.LockAct? {
      OnlyRenamePublishes(w.files, OpOf(w, a).value, p);
    }
  }

  /** And a rename is never kept out: whoever holds the path, in whatever mode, an idle thread can publish it. */
  lemma RenameIsNeverExcluded(w: World, t: Tid, p: Storage.Path)
    requires t in w.locks.threads && w.locks.threads[t].Idle? && TmpPath(p) in w.files
    ensures Possible(w, RenameAct(t, p))
    ensures var v := Next(w, RenameAct(t, p));
            v.locks == w.locks && Content(v.files, p) == Some(w.files[TmpPath(p)])
  {
    OwnStep(w.files, RenameOp(p));
  }

  /** The first steps of `handle_signature_request`: thread 0 gets the read lock of `p`. */
  function Reading(p: Storage.Path): seq<Act> {
    [LockAct(0, StartAcquire(p, Read)), LockAct(0, TakeMap), LockAct(0, Lookup(0)), LockAct(0, DropMap), LockAct(0, Grant)]
  }

  function Fresh(): FileMutexMachine.State {
    FileMutexMachine.State(None, map[], map[], map[0 := Idle, 1 := Idle])
  }

  lemma ReaderGetsIn(p: Storage.Path, files: Files)
    ensures var w := World(Fresh(), files);
            && Goes(w, Reading(p)) && Then(w, Reading(p)).files == files
            && Then(w, Reading(p)).locks.threads == map[0 := Holding(p, Read, 0), 1 := Idle]
  {
    var w := World(Fresh(), files);
    var acts := Reading(p);
    var w1 := Next(w, acts[0]);
    var w2 := Next(w1, acts[1]);
    var w3 := Next(w2, acts[2]);
    var w4 := Next(w3, acts[3]);
    var w5 := Next(w4, acts[4]);
    assert w5.locks.threads == map[0 := Holding(p, Read, 0), 1 := Idle];
    hide Next, Possible;
    assert acts[4..][1..] == [];
    assert Goes(w4, acts[4..]) && Then(w4, acts[4..]) == w5;
    assert acts[3..][1..] == acts[4..];
    assert Goes(w3, acts[3..]) && Then(w3, acts[3..]) == w5;
    assert acts[2..][1..] == acts[3..];
    assert Goes(w2, acts[2..]) && Then(w2, acts[2..]) == w5;
    assert acts[1..][1..] == acts[2..];
    assert Goes(w1, acts[1..]) && Then(w1, acts[1..]) == w5;
  }

  /** A run in which the file changes under the reader: thread 0 holds the read lock of `p` while thread 1 saves and renames
      an upload. The comparison sees the old version before and the new one after. */
  lemma PublishedUnderReader(p: Storage.Path, before: seq<byte>, data: seq<byte>)
    ensures var w := World(Fresh(), map[p := before]);
            && Goes(w, Reading(p))
            && var r := Then(w, Reading(p));
               && Content(r.files, p) == Some(before)
               && Possible(r, SaveAct(1, p, data))
               && var s := Next(r, SaveAct(1, p, data));
                  && Possible(s, RenameAct(1, p))
                  && var v := Next(s, RenameAct(1, p));
                     v.locks.threads == map[0 := Holding(p, Read, 0), 1 := Idle] && Content(v.files, p) == Some(data)
  {
    ReaderGetsIn(p, map[p := before]);
    hide Goes, Then, Reading;
    var r := Then(World(Fresh(), map[p := before]), Reading(p));
    RenameIsNeverExcluded(Next(r, SaveAct(1, p, data)), 1, p);
  }
}
