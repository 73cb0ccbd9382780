/** FileMutex refines the simple specification "every path owns one permanent reader/writer lock": any number of readers
    together, or one writer alone. */
module FileMutexRefinement {
  import opened FileMutexMachine

  // ---- Specification: no map, no counts, no mutex objects, no cleanup ------------------------

  datatype Phase = Outside | Waiting(path: Path, mode: Mode) | Inside(path: Path, mode: Mode)

  /** The lock of a path is nothing but the set of threads inside. */
  datatype Spec = Spec(phases: map<Tid, Phase>)

  datatype SpecAction = Request(path: Path, mode: Mode) | Obtain | Drop | Nothing

  /** Everyone inside `p` reads, and whoever asks wants to read; or nobody is inside. */
  ghost predicate Admits(a: Spec, p: Path, m: Mode) {
    forall u :: u in a.phases && a.phases[u].Inside? && a.phases[u].path == p ==> a.phases[u].mode == Read && m == Read
  }

  ghost predicate SpecEnabled(a: Spec, t: Tid, x: SpecAction) {
    t in a.phases &&
    match x
    case Request(_, _) => a.phases[t].Outside?
    case Obtain => a.phases[t].Waiting? && Admits(a, a.phases[t].path, a.phases[t].mode)
    case Drop => a.phases[t].Inside?
    case Nothing => true
  }

  function NextPhase(ph: Phase, x: SpecAction): Phase {
    match x
    case Request(p, m) => Waiting(p, m)
    case Obtain => if ph.Waiting? then Inside(ph.path, ph.mode) else ph
    case Drop => Outside
    case Nothing => ph
  }

  ghost function SpecApply(a: Spec, t: Tid, x: SpecAction): Spec
    requires SpecEnabled(a, t, x)
  {
    Spec(a.phases[t := NextPhase(a.phases[t], x)])
  }

  ghost predicate SpecRuns(a: Spec, sched: seq<(Tid, SpecAction)>)
    decreases |sched|
  {
    sched != [] ==>
      SpecEnabled(a, sched[0].0, sched[0].1) && SpecRuns(SpecApply(a, sched[0].0, sched[0].1), sched[1..])
  }

  ghost function SpecAfter(a: Spec, sched: seq<(Tid, SpecAction)>): Spec
    requires SpecRuns(a, sched)
    decreases |sched|
  {
    if sched == [] then a else SpecAfter(SpecApply(a, sched[0].0, sched[0].1), sched[1..])
  }

  // ---- Abstraction ---------------------------------------------------------------

  function PhaseOf(pc: Pc): Phase {
    match pc
    case GetWait(p, m) => Waiting(p, m)
    case GetLocked(p, m) => Waiting(p, m)
    case GetDone(p, m, _) => Waiting(p, m)
    case LockWait(p, m, _) => Waiting(p, m)
    case Holding(p, m, _) => Inside(p, m)
    case RelWait(p, m, _) => Inside(p, m)
    case RelLocked(p, m, _) => Inside(p, m)
    case _ => Outside
  }

  ghost function Abs(s: State): Spec {
    Spec(map t | t in s.threads :: PhaseOf(s.threads[t]))
  }

  function AbsAction(a: Action): SpecAction {
    match a
    case StartAcquire(p, m) => Request(p, m)
    case Grant => Obtain
    case Find => Drop
    case _ => Nothing
  }

  ghost function AbsSchedule(sched: Schedule): seq<(Tid, SpecAction)> {
    if sched == [] then [] else [(sched[0].0, AbsAction(sched[0].1))] + AbsSchedule(sched[1..])
  }

  // ---- Who is let in ------------------------------------------------------------------

  /** Everyone who holds `p` reads, and whoever asks wants to read; or nobody holds it. */
  ghost predicate HoldersAdmit(s: State, p: Path, m: Mode) {
    forall u :: u in s.threads && Holds(s.threads[u]) && s.threads[u].path == p ==> s.threads[u].mode == Read && m == Read
  }

  /** A blocked thread can be let in if and only if it and all holders of its path are readers, or there is no holder. */
  lemma GrantedIff(s: State, t: Tid)
    requires Inv(s) && t in s.threads && s.threads[t].LockWait?
    ensures Enabled(s, t, Grant) <==> HoldersAdmit(s, s.threads[t].path, s.threads[t].mode)
  {
    var p := s.threads[t].path;
    assert ThreadOk(s, t);
    assert Plays(s.threads[t], p, Counted);
    assert EntryOk(s, p);
    HoldersAreCounted(s, p);
  }

  /** The mutex has readers exactly when some holder reads, and a writer exactly when some holder writes. */
  lemma HoldersAreCounted(s: State, p: Path)
    requires Inv(s) && p in s.entries && EntryOk(s, p)
    ensures var rw := s.objects[s.entries[p].mtx];
            && (rw.readers > 0 <==> exists u :: u in s.threads && Plays(s.threads[u], p, Reader))
            && (rw.writer <==> exists u :: u in s.threads && Plays(s.threads[u], p, Writer))
  {
    hide Inv, Plays;
    SomePlayer(s.threads, p, Reader);
    SomePlayer(s.threads, p, Writer);
  }

  // ---- Simulation ------------------------------------------------------------------

  lemma AbsPhase(s: State, t: Tid)
    requires t in s.threads
    ensures t in Abs(s).phases && Abs(s).phases[t] == PhaseOf(s.threads[t])
  {
  }

  /** The specification lets a blocked thread in exactly when the implementation does. */
  lemma GrantsAgree(s: State, t: Tid)
    requires Inv(s) && t in s.threads && s.threads[t].LockWait?
    ensures Enabled(s, t, Grant) <==> SpecEnabled(Abs(s), t, Obtain)
  {
    hide Inv, Enabled, Admits, HoldersAdmit, Abs;
    GrantedIff(s, t);
    AbsPhase(s, t);
    AdmitsAgree(s, s.threads[t].path, s.threads[t].mode);
  }

  lemma AdmitsAgree(s: State, p: Path, m: Mode)
    ensures HoldersAdmit(s, p, m) <==> Admits(Abs(s), p, m)
  {
    if Admits(Abs(s), p, m) {
      forall u | u in s.threads && Holds(s.threads[u]) && s.threads[u].path == p ensures s.threads[u].mode == Read && m == Read {
        AbsPhase(s, u);
      }
    }
  }

  /** A thread that is counted in finds the entry of its path. */
  lemma OwnEntry(s: State, t: Tid, p: Path)
    requires Inv(s) && t in s.threads && Plays(s.threads[t], p, Counted)
    ensures p in s.entries
  {
    assert ThreadOk(s, t);
  }

  lemma NextPhaseAgrees(s: State, t: Tid, a: Action)
    requires Inv(s) && Enabled(s, t, a)
    ensures var s' := Apply(s, t, a);
            s'.threads == s.threads[t := s'.threads[t]]
            && PhaseOf(s'.threads[t]) == NextPhase(PhaseOf(s.threads[t]), AbsAction(a))
  {
    hide Inv, LookupEntry, DecrementEntry, ScanEntry, Locked, Unlocked, ObjectAt;
    if a.Find? {
      OwnEntry(s, t, s.threads[t].path);
    }
  }

  /** Each concrete step is one specification step or a stutter; in particular lookup, decrement and cleanup
      are unobservable. */
  lemma StepSimulates(s: State, t: Tid, a: Action)
    requires Inv(s) && Enabled(s, t, a)
    ensures SpecEnabled(Abs(s), t, AbsAction(a))
    ensures Abs(Apply(s, t, a)) == SpecApply(Abs(s), t, AbsAction(a))
  {
    hide Inv;
    AbstractEnabled(s, t, a);
    NextPhaseAgrees(s, t, a);
    AbsUpdate(s, t, Apply(s, t, a));
    AbsPhase(s, t);
    hide Apply, Admits, Abs, PhaseOf, NextPhase;
  }

  lemma AbstractEnabled(s: State, t: Tid, a: Action)
    requires Inv(s) && Enabled(s, t, a)
    ensures SpecEnabled(Abs(s), t, AbsAction(a))
  {
    hide Inv, Admits;
    AbsPhase(s, t);
    if a.Grant? {
      GrantsAgree(s, t);
    }
  }

  lemma AbsUpdate(s: State, t: Tid, s': State)
    requires t in s.threads && t in s'.threads && s'.threads == s.threads[t := s'.threads[t]]
    ensures Abs(s').phases == Abs(s).phases[t := PhaseOf(s'.threads[t])]
  {
  }

  /** Refinement over whole runs: every interleaving of the implementation is an interleaving of the
      specification that ends in the abstraction of the final state. */
  lemma {:induction false} RunRefines(s: State, sched: Schedule)
    requires Inv(s) && Runs(s, sched)
    ensures SpecRuns(Abs(s), AbsSchedule(sched))
    ensures SpecAfter(Abs(s), AbsSchedule(sched)) == Abs(After(s, sched))
    decreases |sched|
  {
    if sched != [] {
      hide Inv, Apply, Enabled;
      StepInv(s, sched[0].0, sched[0].1);
      StepSimulates(s, sched[0].0, sched[0].1);
      RunRefines(Apply(s, sched[0].0, sched[0].1), sched[1..]);
      assert AbsSchedule(sched)[1..] == AbsSchedule(sched[1..]);
    }
  }

  lemma ReachableRefines(s: State, sched: Schedule)
    requires Initial(s) && Runs(s, sched)
    ensures Abs(s) == Spec(map t | t in s.threads :: Outside)
    ensures SpecRuns(Abs(s), AbsSchedule(sched))
    ensures SpecAfter(Abs(s), AbsSchedule(sched)) == Abs(After(s, sched))
  {
    InitialInv(s);
    RunRefines(s, sched);
  }
}
