/** FileMutex never deadlocks: whoever is inside can finish, whatever order the mutexes serve their waiters in. */
module FileMutexProgress {
  import opened Bytes
  import opened FileMutexMachine

  /** The caller's free choices; everything else continues an operation already begun. */
  predicate Starts(a: Action) {
    a.StartAcquire? || a.StartCleanup?
  }

  /** A step that no scheduling policy of the shared mutexes can withhold: a grant counts only on a free mutex. */
  predicate Sure(s: State, t: Tid, a: Action) {
    && Enabled(s, t, a)
    && !Starts(a)
    && (a.Grant? ==> ObjectAt(s.objects, s.threads[t].mtx) == FREE)
  }

  predicate AllIdle(s: State) {
    forall t :: t in s.threads ==> s.threads[t] == Idle
  }

  lemma UnusedId(ids: set<nat>) returns (id: nat)
    ensures forall x :: x in ids ==> x < id
  {
    if ids == {} {
      id := 0;
    } else {
      var x :| x in ids;
      var rest := UnusedId(ids - {x});
      id := Max(rest, x + 1);
      forall y | y in ids ensures y < id { assert y == x || y in ids - {x}; }
    }
  }

  lemma OwnerCanStep(s: State) returns (a: Action)
    requires Inv(s) && s.mapOwner.Some?
    ensures Sure(s, s.mapOwner.value, a)
  {
    var t := s.mapOwner.value;
    assert ThreadOk(s, t);
    match s.threads[t]
    case GetLocked(_, _) =>
      var id := UnusedId(s.objects.Keys);
      a := Lookup(id);
    case RelLocked(_, _, _) => a := Find;
    case RelUnlocked(_, _, _) => a := Decrement;
    case CleanScan(todo) =>
      if todo == {} {
        a := DropMap;
      } else {
        var p :| p in todo;
        a := Scan(p);
      }
    case _ => a := DropMap;
  }

  /** When nobody holds any file lock and nobody is inside the map, every mutex waited for is free. */
  lemma WaitedMutexIsFree(s: State, t: Tid)
    requires Inv(s) && t in s.threads && s.threads[t].LockWait?
    requires forall u :: u in s.threads ==> !Holds(s.threads[u])
    ensures ObjectAt(s.objects, s.threads[t].mtx) == FREE
  {
    var p := s.threads[t].path;
    assert ThreadOk(s, t);
    assert Plays(s.threads[t], p, Counted);
    assert EntryOk(s, p);
    assert Players(s.threads, p, Reader) == {} && Players(s.threads, p, Writer) == {};
  }

  /** Deadlock freedom: while any thread is in the middle of an operation, some thread has a sure step. */
  lemma SomeoneCanStep(s: State) returns (t: Tid, a: Action)
    requires Inv(s) && !AllIdle(s)
    ensures Sure(s, t, a)
  {
    if s.mapOwner.Some? {
      t := s.mapOwner.value;
      a := OwnerCanStep(s);
    } else if u :| u in s.threads && (s.threads[u].GetWait? || s.threads[u].RelWait? || s.threads[u].CleanWait?) {
      t, a := u, TakeMap;
    } else if u :| u in s.threads && s.threads[u].Holding? {
      t, a := u, StartRelease;
    } else {
      forall u | u in s.threads ensures !OwnsMap(s.threads[u]) { assert ThreadOk(s, u); }
      t :| t in s.threads && s.threads[t] != Idle;
      a := Grant;
      WaitedMutexIsFree(s, t);
    }
  }

  lemma NoDeadlock(s: State, sched: Schedule)
    requires Initial(s) && Runs(s, sched) && !AllIdle(After(s, sched))
    ensures exists t, a :: Sure(After(s, sched), t, a)
  {
    InitialInv(s);
    RunInv(s, sched);
    var t, a := SomeoneCanStep(After(s, sched));
  }

  // ---- Every operation in progress comes to an end --------------------------------

  /** Steps a thread still has to take, not counting the entries a cleanup has to visit. */
  function Left(pc: Pc): nat {
    match pc
    case Idle => 0
    case GetWait(_, _) => 9
    case GetLocked(_, _) => 8
    case GetDone(_, _, _) => 7
    case LockWait(_, _, _) => 6
    case Holding(_, _, _) => 5
    case RelWait(_, _, _) => 4
    case RelLocked(_, _, _) => 3
    case RelUnlocked(_, _, _) => 2
    case RelDone => 1
    case CleanWait => 2
    case CleanScan(_) => 1
  }

  ghost function AllLeft(threads: map<Tid, Pc>): nat {
    if threads == map[] then 0 else var t :| t in threads; Left(threads[t]) + AllLeft(threads - {t})
  }

  lemma {:induction false} AllLeftSplit(threads: map<Tid, Pc>, t: Tid)
    requires t in threads
    ensures AllLeft(threads) == Left(threads[t]) + AllLeft(threads - {t})
    decreases |threads|
  {
    var u :| u in threads && AllLeft(threads) == Left(threads[u]) + AllLeft(threads - {u});
    if u != t {
      AllLeftSplit(threads - {u}, t);
      AllLeftSplit(threads - {t}, u);
      assert (threads - {u}) - {t} == (threads - {t}) - {u};
    }
  }

  lemma AllLeftUpdate(threads: map<Tid, Pc>, t: Tid, pc: Pc)
    requires t in threads
    ensures AllLeft(threads[t := pc]) == AllLeft(threads) - Left(threads[t]) + Left(pc)
  {
    AllLeftSplit(threads, t);
    AllLeftSplit(threads[t := pc], t);
    assert threads[t := pc] - {t} == threads - {t};
  }

  function ScanLeft(s: State): nat {
    match s.mapOwner
    case None => 0
    case Some(t) => if t in s.threads && s.threads[t].CleanScan? then |s.threads[t].todo| else 0
  }

  lemma OwnStepShrinks(s: State, t: Tid, a: Action)
    requires Enabled(s, t, a) && !Starts(a)
    ensures var s' := Apply(s, t, a);
            && s'.threads == s.threads[t := s'.threads[t]]
            && (if a.Scan? then Left(s'.threads[t]) == Left(s.threads[t]) && s'.mapOwner == s.mapOwner
                else Left(s'.threads[t]) < Left(s.threads[t]))
  {
  }

  /** Every step but a new request brings the system closer to rest, so no operation can spin. */
  lemma StepShrinks(s: State, t: Tid, a: Action)
    requires Inv(s) && Enabled(s, t, a) && !Starts(a)
    ensures var s' := Apply(s, t, a);
            AllLeft(s'.threads) < AllLeft(s.threads)
            || (AllLeft(s'.threads) == AllLeft(s.threads) && ScanLeft(s') < ScanLeft(s))
  {
    OwnStepShrinks(s, t, a);
    hide Apply, Left, ScanLeft;
    var s' := Apply(s, t, a);
    AllLeftUpdate(s.threads, t, s'.threads[t]);
    if a.Scan? {
      assert ThreadOk(s, t);
      ScanShrinks(s, t, a);
    }
  }

  lemma ScanShrinks(s: State, t: Tid, a: Action)
    requires Enabled(s, t, a) && a.Scan? && s.mapOwner == Some(t)
    ensures ScanLeft(Apply(s, t, a)) < ScanLeft(s)
  {
    var todo := s.threads[t].todo;
    assert |todo - {a.victim}| == |todo| - 1;
  }

  ghost predicate SureRuns(s: State, sched: Schedule)
    decreases |sched|
  {
    sched != [] ==> Sure(s, sched[0].0, sched[0].1) && SureRuns(Apply(s, sched[0].0, sched[0].1), sched[1..])
  }

  lemma {:induction false} Drains(s: State) returns (sched: Schedule)
    requires Inv(s)
    ensures SureRuns(s, sched) && Runs(s, sched) && AllIdle(After(s, sched))
    decreases AllLeft(s.threads), ScanLeft(s)
  {
    if AllIdle(s) {
      sched := [];
    } else {
      var t, a := SomeoneCanStep(s);
      StepInv(s, t, a);
      StepShrinks(s, t, a);
      var rest := Drains(Apply(s, t, a));
      sched := [(t, a)] + rest;
      assert sched[1..] == rest;
    }
  }

  /** From every reachable state there is a continuation, by sure steps alone, after which every thread is idle. */
  lemma ReachableDrains(s: State, sched: Schedule)
    requires Initial(s) && Runs(s, sched)
    ensures exists rest :: SureRuns(After(s, sched), rest) && Runs(After(s, sched), rest)
                           && AllIdle(After(After(s, sched), rest))
  {
    InitialInv(s);
    RunInv(s, sched);
    var rest := Drains(After(s, sched));
  }
}
