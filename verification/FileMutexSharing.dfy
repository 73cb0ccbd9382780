/** Readers share: any number of threads can hold the read lock of one path together. */
module FileMutexSharing {
  import opened Bytes
  import opened FileMutexMachine
  import opened FileMutexRefinement
  import FileMutexProgress

  lemma {:induction false} RunsConcat(s: State, xs: Schedule, ys: Schedule)
    requires Runs(s, xs) && Runs(After(s, xs), ys)
    ensures Runs(s, xs + ys) && After(s, xs + ys) == After(After(s, xs), ys)
    decreases |xs|
  {
    hide Apply, Enabled;
    if xs == [] {
      assert xs + ys == ys;
    } else {
      assert (xs + ys)[1..] == xs[1..] + ys;
      RunsConcat(Apply(s, xs[0].0, xs[0].1), xs[1..], ys);
    }
  }

  /** One step as a run, and one step more. */
  lemma Extend(s: State, xs: Schedule, t: Tid, a: Action)
    requires Runs(s, xs) && Enabled(After(s, xs), t, a)
    ensures Runs(s, xs + [(t, a)]) && After(s, xs + [(t, a)]) == Apply(After(s, xs), t, a)
  {
    hide Apply, Enabled;
    var v := After(s, xs);
    assert [(t, a)][1..] == [];
    assert Runs(v, [(t, a)]) && After(v, [(t, a)]) == Apply(v, t, a);
    RunsConcat(s, xs, [(t, a)]);
  }

  /** The steps of an acquire up to the wait for the file's mutex. */
  lemma Approaches(s: State, t: Tid, p: Path) returns (sched: Schedule)
    requires s.mapOwner.None? && t in s.threads && s.threads[t] == Idle
    ensures Runs(s, sched)
    ensures var v := After(s, sched);
            && v.mapOwner.None? && t in v.threads && v.threads[t].LockWait?
            && v.threads == s.threads[t := LockWait(p, Read, v.threads[t].mtx)]
  {
    var id := FileMutexProgress.UnusedId(s.objects.Keys);
    assert After(s, []) == s;
    hide Runs, After;
    Extend(s, [], t, StartAcquire(p, Read));
    var a1: Schedule := [] + [(t, StartAcquire(p, Read))];
    Extend(s, a1, t, TakeMap);
    var a2 := a1 + [(t, TakeMap)];
    Extend(s, a2, t, Lookup(id));
    var a3 := a2 + [(t, Lookup(id))];
    Extend(s, a3, t, DropMap);
    sched := a3 + [(t, DropMap)];
  }

  /** An idle thread asks to read a path nobody writes, and gets in beside all who read it already. */
  lemma OneMoreReader(s: State, t: Tid, p: Path) returns (sched: Schedule)
    requires Inv(s) && s.mapOwner.None? && t in s.threads && s.threads[t] == Idle && HoldersAdmit(s, p, Read)
    ensures Runs(s, sched)
    ensures var v := After(s, sched);
            && v.mapOwner.None? && t in v.threads && v.threads[t].Holding?
            && v.threads == s.threads[t := Holding(p, Read, v.threads[t].mtx)]
  {
    hide Inv, Runs, After;
    var wait := Approaches(s, t, p);
    var v := After(s, wait);
    RunInv(s, wait);
    GrantedIff(v, t);
    Extend(s, wait, t, Grant);
    sched := wait + [(t, Grant)];
  }

  function Resting(n: nat): State {
    State(None, map[], map[], IdleThreads(n))
  }

  function IdleThreads(n: nat): (m: map<Tid, Pc>)
    ensures forall t: Tid :: t in m <==> t < n
    ensures forall t :: t in m ==> m[t] == Idle
  {
    if n == 0 then map[] else IdleThreads(n - 1)[n - 1 := Idle]
  }

  /** The first `k` of `n` threads read `p`, the others rest. */
  ghost predicate ReadTogether(s: State, n: nat, k: nat, p: Path) {
    && s.mapOwner.None? && (forall t: Tid :: t in s.threads <==> t < n)
    && forall t: Tid :: t in s.threads ==>
         if t < k then s.threads[t].Holding? && s.threads[t].path == p && s.threads[t].mode == Read else s.threads[t].Idle?
  }

  lemma TogetherAdmits(s: State, n: nat, k: nat, p: Path)
    requires ReadTogether(s, n, k, p) && k < n
    ensures HoldersAdmit(s, p, Read) && s.mapOwner.None? && k in s.threads && s.threads[k] == Idle
  {
  }

  lemma TogetherGrows(s: State, s': State, n: nat, k: nat, p: Path)
    requires ReadTogether(s, n, k, p) && k < n && s'.mapOwner.None? && k in s'.threads && s'.threads[k].Holding?
    requires s'.threads == s.threads[k := Holding(p, Read, s'.threads[k].mtx)]
    ensures ReadTogether(s', n, k + 1, p)
  {
  }

  lemma {:induction false} FirstReaders(n: nat, k: nat, p: Path) returns (sched: Schedule)
    requires k <= n
    ensures Runs(Resting(n), sched) && ReadTogether(After(Resting(n), sched), n, k, p)
    decreases k
  {
    var s := Resting(n);
    if k == 0 {
      sched := [];
    } else {
      InitialInv(s);
      hide Inv, Runs, After, Resting, HoldersAdmit, ReadTogether;
      var before := FirstReaders(n, k - 1, p);
      var v := After(s, before);
      RunInv(s, before);
      TogetherAdmits(v, n, k - 1, p);
      var more := OneMoreReader(v, k - 1, p);
      RunsConcat(s, before, more);
      sched := before + more;
      TogetherGrows(v, After(v, more), n, k - 1, p);
    }
  }

  /** For every number of threads there is a run after which all of them hold the read lock of `p` at the same time. */
  lemma ReadersShare(n: nat, p: Path)
    ensures Initial(Resting(n))
    ensures exists sched :: Runs(Resting(n), sched)
              && var threads := After(Resting(n), sched).threads;
                 forall t: Tid :: t < n ==> t in threads && Holds(threads[t]) && threads[t].path == p && threads[t].mode == Read
  {
    var sched := FirstReaders(n, n, p);
    hide Runs, After;
  }
}
