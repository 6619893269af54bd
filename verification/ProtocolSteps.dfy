/**
  Single steps of the slot protocol: which of them is possible in a state, and what a release, a probe
  and a crash do.
 */
module ProtocolSteps {
  import opened Base
  import opened SlotProtocol
  import opened ProtocolRefinement

  // ---- which step comes next ----

  ghost predicate CanGrab(pool: set<Gpu>, st: State, w: nat) {
    exists g :: Apply(pool, st, GatherTake(w, g)).Some?
  }

  ghost predicate CanScanTake(pool: set<Gpu>, st: State, w: nat) {
    exists g :: Apply(pool, st, ScanTake(w, g)).Some?
  }

  function One(b: bool): nat {
    if b then 1 else 0
  }

  lemma ScanSteps(pool: set<Gpu>, st: State, w: nat, g: Gpu)
    requires w in st.processes && st.processes[w].doing.Scanning?
    ensures var p := st.processes[w];
            && (Apply(pool, st, ScanTake(w, g)).Some? <==> g in p.available && g in p.doing.want)
            && (Apply(pool, st, ScanExhausted(w)).Some? <==> p.available * p.doing.want == {})
  {
  }

  /** A scan stops with nothing if and only if there is nothing left in memory to take. */
  lemma ScanExhaustedExactlyWhen(pool: set<Gpu>, st: State, w: nat)
    requires w in st.processes && st.processes[w].doing.Scanning?
    ensures Apply(pool, st, ScanExhausted(w)).Some? <==> !CanScanTake(pool, st, w)
  {
    var p := st.processes[w];
    forall g ensures Apply(pool, st, ScanTake(w, g)).Some? <==> g in p.available && g in p.doing.want {
      ScanSteps(pool, st, w, g);
    }
    ScanSteps(pool, st, w, LockKey("", 0));
    assert forall g :: g in p.available * p.doing.want <==> g in p.available && g in p.doing.want;
    if p.available * p.doing.want != {} {
      var g :| g in p.available * p.doing.want;
      assert Apply(pool, st, ScanTake(w, g)).Some?;
    }
  }

  lemma GatherSteps(pool: set<Gpu>, st: State, w: nat, g: Gpu)
    requires w in st.processes && st.processes[w].doing.Gathering?
    ensures var p := st.processes[w]; var plan, k := p.doing.plan, |p.doing.got|;
            && (Apply(pool, st, GatherTake(w, g)).Some? <==> plan.Takes(k, g) && g in p.available)
            && (Apply(pool, st, GatherDone(w)).Some? <==> k >= plan.Size())
            && (Apply(pool, st, GatherRaise(w)).Some? <==> plan.Raises(k))
            && (Apply(pool, st, GatherGiveUp(w)).Some? <==> plan.Blocked(k, p.available))
  {
  }

  /** Between two grabs of a collection exactly one of four things can happen: a grab, the end, the raise, or giving up. */
  lemma OneWayOn(pool: set<Gpu>, st: State, w: nat)
    requires w in st.processes && st.processes[w].doing.Gathering?
    ensures One(CanGrab(pool, st, w)) + One(Apply(pool, st, GatherDone(w)).Some?)
            + One(Apply(pool, st, GatherRaise(w)).Some?) + One(Apply(pool, st, GatherGiveUp(w)).Some?) == 1
  {
    var p := st.processes[w];
    var plan, k := p.doing.plan, |p.doing.got|;
    forall g ensures Apply(pool, st, GatherTake(w, g)).Some? <==> plan.Takes(k, g) && g in p.available {
      GatherSteps(pool, st, w, g);
    }
    GatherSteps(pool, st, w, LockKey("", 0));
    GrabsLeft(plan, k, p.available);
    assert CanGrab(pool, st, w) <==> exists g :: plan.Takes(k, g) && g in p.available;
  }

  lemma GrabsLeft(plan: Plan, k: nat, available: set<Gpu>)
    ensures One(exists g :: plan.Takes(k, g) && g in available) + One(k >= plan.Size())
            + One(plan.Raises(k)) + One(plan.Blocked(k, available)) == 1
  {
    assert forall g :: g in available * plan.want <==> g in available && g in plan.want;
    if k < plan.Size() && plan.Any? && available * plan.want != {} {
      var g :| g in available * plan.want;
      assert plan.Takes(k, g);
    }
    if k < plan.Size() && plan.Pinned? && plan.list[k] in plan.want && plan.list[k] in available {
      assert plan.Takes(k, plan.list[k]);
    }
  }

  /** A worker can die at any time; its locks go with it, no other lock does, and a worker started in its place has the whole pool. */
  lemma CrashFreesItsLocks(pool: set<Gpu>, st: State, w: nat)
    requires LockInv(st)
    ensures Apply(pool, st, Crash(w)).Some? <==> w in st.processes
    ensures w in st.processes ==>
              var next := Apply(pool, st, Crash(w)).value;
              && next.processes == st.processes - {w}
              && next.locks == st.locks - GpusOf(Locked(st.processes[w]))
              && Apply(pool, next, Start(w)) == Some(With(next, w, Process(pool, {}, {}, {}, {}, Idle, 0), next.locks))
  {
    if w in st.processes {
      LocksOf(st, w);
      var next := State(st.processes - {w}, UnlockAll(st.locks, w));
      assert Apply(pool, st, Crash(w)) == Some(next);
      assert w !in next.processes;
    }
  }

  lemma LocksOf(st: State, w: nat)
    requires LockInv(st) && w in st.processes
    ensures UnlockAll(st.locks, w) == st.locks - GpusOf(Locked(st.processes[w]))
  {
    var mine := GpusOf(Locked(st.processes[w]));
    assert Holds(st.locks, w, st.processes[w]);
    forall g | g in st.locks ensures st.locks[g].process == w <==> g in mine {
      assert Backed(st, g);
      if st.locks[g].process == w {
        assert Slot(g, st.locks[g]) in Locked(st.processes[w]);
      }
    }
  }

  // ---- releases and probes ----

  lemma ReturnMemoryStep(pool: set<Gpu>, st: State, w: nat, s: Slot, q: Process)
    requires w in st.processes && s in st.processes[w].slots
    requires var p := st.processes[w];
             q == p.(slots := p.slots - {s}, returning := p.returning + {s}, released := p.released + {s},
                     available := p.available + {s.gpu})
    ensures Apply(pool, st, ReturnMemory(w, s)) == Some(With(st, w, q, st.locks))
  {
  }

  lemma ReturnLockStep(pool: set<Gpu>, st: State, w: nat, s: Slot, q: Process)
    requires w in st.processes && s in st.processes[w].returning && s.gpu in st.locks && st.locks[s.gpu] == s.lock
    requires q == st.processes[w].(returning := st.processes[w].returning - {s})
    ensures Apply(pool, st, ReturnLock(w, s)) == Some(With(st, w, q, st.locks - {s.gpu}))
  {
  }

  lemma TwoEvents(pool: set<Gpu>, st: State, a: Event, mid: State, b: Event, next: State)
    requires Apply(pool, st, a) == Some(mid) && Apply(pool, mid, b) == Some(next)
    ensures RunFrom(pool, st, [a, b]) == Some(next)
  {
    assert [a, b][1..] == [b] && [b][1..] == [];
    assert RunFrom(pool, mid, [b]) == RunFrom(pool, next, []);
  }

  lemma WithTwice(st: State, w: nat, p: Process, locks: map<Gpu, Lock>, q: Process, after: map<Gpu, Lock>)
    ensures With(With(st, w, p, locks), w, q, after) == With(st, w, q, after)
  {
  }

  lemma SlotIsLocked(st: State, w: nat, s: Slot)
    requires LockInv(st) && w in st.processes && s in st.processes[w].slots
    ensures s.gpu in st.locks && st.locks[s.gpu] == s.lock && s !in st.processes[w].returning
  {
    var p := st.processes[w];
    assert Holds(st.locks, w, p) && s in Locked(p);
  }

  /** A release is always possible: memory gains the GPU, the lock goes, and nothing else changes. */
  lemma ReleaseIsProtocolRun(pool: set<Gpu>, st: State, w: nat, s: Slot)
    requires LockInv(st) && w in st.processes && s in st.processes[w].slots
    ensures var p := st.processes[w];
            var q := p.(available := p.available + {s.gpu}, slots := p.slots - {s}, released := p.released + {s});
            RunFrom(pool, st, [ReturnMemory(w, s), ReturnLock(w, s)]) == Some(With(st, w, q, st.locks - {s.gpu}))
  {
    SlotIsLocked(st, w, s);
    var p := st.processes[w];
    var mid := p.(slots := p.slots - {s}, returning := p.returning + {s}, released := p.released + {s},
                  available := p.available + {s.gpu});
    var q := mid.(returning := mid.returning - {s});
    assert q.returning == p.returning;
    ReturnMemoryStep(pool, st, w, s, mid);
    ReturnLockStep(pool, With(st, w, mid, st.locks), w, s, q);
    WithTwice(st, w, mid, st.locks, q, st.locks - {s.gpu});
    TwoEvents(pool, st, ReturnMemory(w, s), With(st, w, mid, st.locks), ReturnLock(w, s), With(st, w, q, st.locks - {s.gpu}));
  }

  lemma ProbeLockStep(pool: set<Gpu>, st: State, w: nat, g: Gpu, s: Slot)
    requires w in st.processes && s == Fresh(st.processes[w], w, g)
    ensures var p := st.processes[w];
            Apply(pool, st, ProbeLock(w, g)) ==
              if g in st.locks then None
              else Some(With(st, w, p.(serial := p.serial + 1, probes := p.probes + {s}), st.locks[g := s.lock]))
  {
  }

  lemma ProbeUnlockStep(pool: set<Gpu>, st: State, w: nat, s: Slot, q: Process)
    requires w in st.processes && s in st.processes[w].probes && s.gpu in st.locks && st.locks[s.gpu] == s.lock
    requires q == st.processes[w].(probes := st.processes[w].probes - {s})
    ensures Apply(pool, st, ProbeUnlock(w, s)) == Some(With(st, w, q, st.locks - {s.gpu}))
  {
  }

  lemma FreshIsNoProbe(st: State, w: nat, g: Gpu)
    requires LockInv(st) && w in st.processes
    ensures Fresh(st.processes[w], w, g) !in st.processes[w].probes
  {
    var p := st.processes[w];
    assert Holds(st.locks, w, p);
    assert p.probes <= Locked(p);
  }

  lemma AddThenRemove<T>(a: set<T>, x: T)
    requires x !in a
    ensures a + {x} - {x} == a
  {
  }

  lemma LockThenUnlock(locks: map<Gpu, Lock>, g: Gpu, l: Lock)
    requires g !in locks
    ensures locks[g := l] - {g} == locks
  {
  }

  lemma ProbeRun(pool: set<Gpu>, st: State, w: nat, g: Gpu, s: Slot)
    requires w in st.processes && g !in st.locks && s == Fresh(st.processes[w], w, g) && s !in st.processes[w].probes
    ensures RunFrom(pool, st, [ProbeLock(w, g), ProbeUnlock(w, s)]) ==
            Some(With(st, w, st.processes[w].(serial := st.processes[w].serial + 1), st.locks))
  {
    var p, taken := st.processes[w], st.locks[g := s.lock];
    var mid, q := p.(serial := p.serial + 1, probes := p.probes + {s}), p.(serial := p.serial + 1);
    AddThenRemove(p.probes, s);
    LockThenUnlock(st.locks, g, s.lock);
    ProbeLockStep(pool, st, w, g, s);
    ProbeUnlockStep(pool, With(st, w, mid, taken), w, s, q);
    WithTwice(st, w, mid, taken, q, st.locks);
    TwoEvents(pool, st, ProbeLock(w, g), With(st, w, mid, taken), ProbeUnlock(w, s), With(st, w, q, st.locks));
  }

  /** A probe gets the lock of a GPU if and only if nobody holds it, and leaves everything but its serial as it was. */
  lemma ProbeIsProtocolRun(pool: set<Gpu>, st: State, w: nat, g: Gpu)
    requires LockInv(st) && w in st.processes
    ensures Apply(pool, st, ProbeLock(w, g)).Some? <==> g !in st.locks
    ensures g !in st.locks ==>
              var p := st.processes[w];
              RunFrom(pool, st, [ProbeLock(w, g), ProbeUnlock(w, Slot(g, Lock(w, p.serial)))]) ==
              Some(With(st, w, p.(serial := p.serial + 1), st.locks))
  {
    var s := Fresh(st.processes[w], w, g);
    ProbeLockStep(pool, st, w, g, s);
    FreshIsNoProbe(st, w, g);
    if g !in st.locks {
      ProbeRun(pool, st, w, g, s);
    }
  }
}
