/**
  The link between the two models: what a pass of one worker computes while the other workers
  stand still is the outcome of a run of protocol steps of that worker alone. Also, a worker in
  the middle of an acquisition can always finish it by its own steps.
 */
module ProtocolRefinement {
  import opened Base
  import A = Allocator
  import N = NodePool
  import opened SlotProtocol

  /** st with another process w and another lock table. */
  function With(st: State, w: nat, p: Process, locks: map<Gpu, Lock>): State {
    State(st.processes[w := p], locks)
  }

  ghost predicate Solo(w: nat, events: seq<Event>) {
    forall i :: 0 <= i < |events| ==> events[i].w == w && !events[i].Start? && !events[i].Crash?
  }

  /** The worker alone takes st to next. */
  ghost predicate SoloRun(pool: set<Gpu>, w: nat, st: State, events: seq<Event>, next: State) {
    Solo(w, events) && RunFrom(pool, st, events) == Some(next)
  }

  lemma OneEvent(pool: set<Gpu>, st: State, e: Event, next: State)
    requires Apply(pool, st, e) == Some(next) && !e.Start? && !e.Crash?
    ensures SoloRun(pool, e.w, st, [e], next)
  {
    assert RunFrom(pool, next, []) == Some(next);
    assert [e][1..] == [];
  }

  lemma Chain(pool: set<Gpu>, w: nat, st: State, a: seq<Event>, mid: State, b: seq<Event>, next: State)
    requires SoloRun(pool, w, st, a, mid) && SoloRun(pool, w, mid, b, next)
    ensures SoloRun(pool, w, st, a + b, next)
  {
    RunFromConcat(pool, st, a, b);
  }

  // ---- the scan ----

  /** Taking and failing to lock each of the given GPUs parks them all. */
  lemma {:induction false} ParkAll(pool: set<Gpu>, st: State, w: nat, gs: set<Gpu>) returns (events: seq<Event>, next: State)
    requires w in st.processes && st.processes[w].doing.Scanning? && gs <= st.processes[w].doing.want
    requires gs <= st.processes[w].available && gs <= st.locks.Keys
    ensures SoloRun(pool, w, st, events, next)
    ensures var p := st.processes[w];
            next == With(st, w, p.(available := p.available - gs,
                                   doing := Scanning(p.doing.want, p.doing.parked + gs)), st.locks)
    decreases gs
  {
    var p := st.processes[w];
    if gs == {} {
      events, next := [], st;
      assert p.available - gs == p.available && p.doing.parked + gs == p.doing.parked;
      assert st.processes[w := p] == st.processes;
    } else {
      var g :| g in gs;
      var e1, mid := ParkOne(pool, st, w, g);
      var e2;
      e2, next := ParkAll(pool, mid, w, gs - {g});
      events := e1 + e2;
      Chain(pool, w, st, e1, mid, e2, next);
      assert p.available - {g} - (gs - {g}) == p.available - gs;
      assert p.doing.parked + {g} + (gs - {g}) == p.doing.parked + gs;
    }
  }

  lemma ParkOne(pool: set<Gpu>, st: State, w: nat, g: Gpu) returns (events: seq<Event>, next: State)
    requires w in st.processes && st.processes[w].doing.Scanning? && g in st.processes[w].doing.want
    requires g in st.processes[w].available && g in st.locks
    ensures SoloRun(pool, w, st, events, next)
    ensures var p := st.processes[w];
            next == With(st, w, p.(available := p.available - {g},
                                   doing := Scanning(p.doing.want, p.doing.parked + {g})), st.locks)
  {
    var p := st.processes[w];
    var q := p.(available := p.available - {g}, doing := ScanTook(p.doing.want, p.doing.parked, g));
    var r := q.(doing := Scanning(p.doing.want, p.doing.parked + {g}));
    var mid := With(st, w, q, st.locks);
    next := With(st, w, r, st.locks);
    OneEvent(pool, st, ScanTake(w, g), mid);
    assert mid.processes[w := r] == next.processes;
    OneEvent(pool, mid, ScanTryLock(w), next);
    events := [ScanTake(w, g)] + [ScanTryLock(w)];
    Chain(pool, w, st, [ScanTake(w, g)], mid, [ScanTryLock(w)], next);
  }

  /** One loop over the parked GPUs puts them all back. */
  lemma {:induction false} UnparkAll(pool: set<Gpu>, st: State, w: nat) returns (events: seq<Event>, next: State)
    requires w in st.processes && st.processes[w].doing.Unparking?
    ensures SoloRun(pool, w, st, events, next)
    ensures var p := st.processes[w];
            next == With(st, w, p.(available := p.available + p.doing.todo, doing := p.doing.(todo := {})), st.locks)
    decreases st.processes[w].doing.todo
  {
    var p := st.processes[w];
    if p.doing.todo == {} {
      events, next := [], st;
      assert p.available + p.doing.todo == p.available;
      assert st.processes[w := p] == st.processes;
    } else {
      var g :| g in p.doing.todo;
      var q := p.(available := p.available + {g}, doing := p.doing.(todo := p.doing.todo - {g}));
      var mid := With(st, w, q, st.locks);
      OneEvent(pool, st, UnparkOne(w, g), mid);
      var rest;
      rest, next := UnparkAll(pool, mid, w);
      events := [UnparkOne(w, g)] + rest;
      Chain(pool, w, st, [UnparkOne(w, g)], mid, rest, next);
      assert q.available + (p.doing.todo - {g}) == p.available + p.doing.todo;
    }
  }

  /** Taking and locking g after some GPUs were parked. */
  lemma TakeAndLock(pool: set<Gpu>, st: State, w: nat, g: Gpu) returns (events: seq<Event>, next: State)
    requires w in st.processes && st.processes[w].doing.Scanning? && g in st.processes[w].doing.want
    requires g in st.processes[w].available && g !in st.locks
    ensures SoloRun(pool, w, st, events, next)
    ensures var p := st.processes[w];
            var s, parked := Fresh(p, w, g), p.doing.parked;
            next == With(st, w, p.(available := p.available - {g}, serial := p.serial + 1,
                                   doing := Unparking(parked, parked, Some(s), true)), st.locks[g := s.lock])
  {
    var p := st.processes[w];
    var s, parked := Fresh(p, w, g), p.doing.parked;
    var mid := With(st, w, p.(available := p.available - {g}, doing := ScanTook(p.doing.want, parked, g)), st.locks);
    OneEvent(pool, st, ScanTake(w, g), mid);
    next := With(st, w, p.(available := p.available - {g}, serial := p.serial + 1,
                           doing := Unparking(parked, parked, Some(s), true)), st.locks[g := s.lock]);
    assert mid.processes[w := next.processes[w]] == next.processes;
    OneEvent(pool, mid, ScanTryLock(w), next);
    events := [ScanTake(w, g)] + [ScanTryLock(w)];
    Chain(pool, w, st, [ScanTake(w, g)], mid, [ScanTryLock(w)], next);
  }

  /** A scan that parks some locked GPUs and wins g changes the worker by that one slot. */
  lemma ScanWins(pool: set<Gpu>, st: State, w: nat, want: set<Gpu>, parked: set<Gpu>, g: Gpu) returns (events: seq<Event>, next: State)
    requires w in st.processes && st.processes[w].doing.Idle?
    requires parked <= st.processes[w].available && parked <= st.locks.Keys && parked <= want
    requires g in st.processes[w].available && g !in st.locks && g in want
    ensures SoloRun(pool, w, st, events, next)
    ensures var p := st.processes[w];
            var s := Fresh(p, w, g);
            next == With(st, w, p.(available := p.available - {g}, slots := p.slots + {s}, serial := p.serial + 1),
                         st.locks[g := s.lock])
  {
    var p := st.processes[w];
    var st1 := With(st, w, p.(doing := Scanning(want, {})), st.locks);
    OneEvent(pool, st, BeginScan(w, want), st1);
    var e2, st2 := ParkAll(pool, st1, w, parked);
    Chain(pool, w, st, [BeginScan(w, want)], st1, e2, st2);
    var e3, st3 := TakeAndLock(pool, st2, w, g);
    Chain(pool, w, st, [BeginScan(w, want)] + e2, st2, e3, st3);
    var e4;
    e4, next := UnparkTwice(pool, st3, w);
    events := [BeginScan(w, want)] + e2 + e3 + e4;
    Chain(pool, w, st, [BeginScan(w, want)] + e2 + e3, st3, e4, next);
    assert {} + parked == parked;
    assert p.available - parked - {g} + parked == p.available - {g};
  }

  /** After a win the parked GPUs are put back twice and the slot is handed out. */
  lemma UnparkTwice(pool: set<Gpu>, st: State, w: nat) returns (events: seq<Event>, next: State)
    requires w in st.processes
    requires var a := st.processes[w].doing; a.Unparking? && a.todo == a.parked && a.found.Some? && a.again
    ensures SoloRun(pool, w, st, events, next)
    ensures var p := st.processes[w];
            next == With(st, w, p.(available := p.available + p.doing.parked, slots := p.slots + {p.doing.found.value},
                                   doing := Idle), st.locks)
  {
    var p := st.processes[w];
    var e1, st1 := UnparkAll(pool, st, w);
    var st2 := With(st1, w, st1.processes[w].(doing := p.doing.(again := false)), st.locks);
    OneEvent(pool, st1, UnparkDone(w), st2);
    Chain(pool, w, st, e1, st1, [UnparkDone(w)], st2);
    var e3, st3 := UnparkAll(pool, st2, w);
    Chain(pool, w, st, e1 + [UnparkDone(w)], st2, e3, st3);
    var q := st3.processes[w];
    assert q.available == p.available + p.doing.parked;
    next := With(st3, w, q.(slots := q.slots + {p.doing.found.value}, doing := Idle), st.locks);
    OneEvent(pool, st3, UnparkDone(w), next);
    events := e1 + [UnparkDone(w)] + e3 + [UnparkDone(w)];
    Chain(pool, w, st, e1 + [UnparkDone(w)] + e3, st3, [UnparkDone(w)], next);
    assert next.processes == st.processes[w := next.processes[w]];
  }

  /** A scan that finds only locked GPUs leaves the whole state as it was. */
  lemma ScanFails(pool: set<Gpu>, st: State, w: nat, want: set<Gpu>) returns (events: seq<Event>)
    requires w in st.processes && st.processes[w].doing.Idle?
    requires want * st.processes[w].available <= st.locks.Keys
    ensures SoloRun(pool, w, st, events, st)
  {
    var p := st.processes[w];
    var parked := want * p.available;
    var st1 := With(st, w, p.(doing := Scanning(want, {})), st.locks);
    OneEvent(pool, st, BeginScan(w, want), st1);
    var e2, st2 := ParkAll(pool, st1, w, parked);
    Chain(pool, w, st, [BeginScan(w, want)], st1, e2, st2);
    var st3 := With(st2, w, st2.processes[w].(doing := Unparking(parked, parked, None, false)), st.locks);
    assert st2.processes[w].doing.parked == parked;
    assert st2.processes[w].available * want == {};
    OneEvent(pool, st2, ScanExhausted(w), st3);
    Chain(pool, w, st, [BeginScan(w, want)] + e2, st2, [ScanExhausted(w)], st3);
    var e4, st4 := UnparkAll(pool, st3, w);
    Chain(pool, w, st, [BeginScan(w, want)] + e2 + [ScanExhausted(w)], st3, e4, st4);
    assert p.available - parked + parked == p.available;
    assert st4.processes[w := p] == st.processes;
    OneEvent(pool, st4, UnparkDone(w), st);
    events := [BeginScan(w, want)] + e2 + [ScanExhausted(w)] + e4 + [UnparkDone(w)];
    Chain(pool, w, st, [BeginScan(w, want)] + e2 + [ScanExhausted(w)] + e4, st4, [UnparkDone(w)], st);
  }

  function KeysOf(node: string, gpus: set<A.GpuInfo>): set<Gpu> {
    set g | g in gpus :: LockKey(node, g.index)
  }

  /**
    The outcome that ScanNode promises is the outcome of a solo run of the protocol: the first
    grabbable candidate becomes a slot, or nothing changes when there is none.
   */
  lemma ScanNodeIsProtocolRun(pool: set<Gpu>, st: State, w: nat, want: set<Gpu>, node: string, candidates: set<A.GpuInfo>, won: Option<A.GpuInfo>)
    returns (events: seq<Event>, next: State)
    requires w in st.processes && st.processes[w].doing.Idle?
    requires KeysOf(node, candidates) == want * st.processes[w].available
    requires won.None? <==> N.Grabbable(node, candidates, st.locks.Keys) == {}
    requires won.Some? ==> A.IsLeast(won.value, N.Grabbable(node, candidates, st.locks.Keys))
    ensures SoloRun(pool, w, st, events, next)
    ensures won.None? ==> next == st
    ensures won.Some? ==>
              var p, g := st.processes[w], LockKey(node, won.value.index);
              next == With(st, w, p.(available := p.available - {g}, slots := p.slots + {Fresh(p, w, g)}, serial := p.serial + 1),
                           st.locks[g := Lock(w, p.serial)])
  {
    var grab := N.Grabbable(node, candidates, st.locks.Keys);
    if won.None? {
      forall k | k in KeysOf(node, candidates) ensures k in st.locks.Keys {
        var c :| c in candidates && LockKey(node, c.index) == k;
        assert c !in grab;
      }
      events := ScanFails(pool, st, w, want);
      next := st;
    } else {
      assert won.value in grab;
      var parked := KeysOf(node, set c | c in candidates && c !in grab && A.Before(c, won.value));
      assert parked <= KeysOf(node, candidates);
      assert LockKey(node, won.value.index) in KeysOf(node, candidates);
      events, next := ScanWins(pool, st, w, want, parked, LockKey(node, won.value.index));
    }
  }

  // ---- the all-or-nothing grab ----

  /** The locks of got are held under its lock objects, one per GPU. */
  ghost predicate HoldsAll(locks: map<Gpu, Lock>, got: set<Slot>) {
    forall s :: s in got ==> s.gpu in locks && locks[s.gpu] == s.lock
  }

  /** next differs from st by additionally holding the GPUs gs, taken in that order. */
  ghost predicate Collected(st: State, w: nat, gs: seq<Gpu>, next: State) {
    && w in st.processes && st.processes[w].doing.Gathering?
    && w in next.processes && next.processes[w].doing.Gathering?
    && var p, q := st.processes[w], next.processes[w];
       && next == With(st, w, q, next.locks)
       && q == p.(available := p.available - Elements(gs), doing := Gathering(p.doing.plan, q.doing.got), serial := q.serial)
       && GpusOf(q.doing.got) == GpusOf(p.doing.got) + Elements(gs)
       && |q.doing.got| == |p.doing.got| + |gs|
       && HoldsAll(next.locks, q.doing.got)
       && next.locks.Keys == st.locks.Keys + Elements(gs)
       && forall g :: g in st.locks ==> next.locks[g] == st.locks[g]
  }

  function Elements(gs: seq<Gpu>): set<Gpu> {
    set g | g in gs
  }

  /** The plan lets these GPUs be taken next, one after the other. */
  ghost predicate MayTake(plan: Plan, k: nat, gs: seq<Gpu>) {
    forall i :: 0 <= i < |gs| ==> plan.Takes(k + i, gs[i])
  }

  ghost predicate Distinct(gs: seq<Gpu>) {
    forall i, j :: 0 <= i < j < |gs| ==> gs[i] != gs[j]
  }

  lemma CollectOne(pool: set<Gpu>, st: State, w: nat, g: Gpu) returns (events: seq<Event>, next: State)
    requires w in st.processes && st.processes[w].doing.Gathering?
    requires var a := st.processes[w].doing; HoldsAll(st.locks, a.got) && a.plan.Takes(|a.got|, g)
    requires g in st.processes[w].available && g !in st.locks
    ensures SoloRun(pool, w, st, events, next) && Collected(st, w, [g], next)
  {
    var p := st.processes[w];
    var s, plan := Fresh(p, w, g), p.doing.plan;
    assert s !in p.doing.got;
    var q := p.(available := p.available - {g}, doing := GatherTook(plan, p.doing.got, g));
    var mid := With(st, w, q, st.locks);
    OneEvent(pool, st, GatherTake(w, g), mid);
    var r := q.(serial := p.serial + 1, doing := Gathering(plan, p.doing.got + {s}));
    next := With(st, w, r, st.locks[g := s.lock]);
    assert mid.processes[w := r] == next.processes;
    OneEvent(pool, mid, GatherTryLock(w), next);
    events := [GatherTake(w, g)] + [GatherTryLock(w)];
    Chain(pool, w, st, [GatherTake(w, g)], mid, [GatherTryLock(w)], next);
    NowCollected(st, w, g, s, next);
  }

  lemma NowCollected(st: State, w: nat, g: Gpu, s: Slot, next: State)
    requires w in st.processes && st.processes[w].doing.Gathering? && s.gpu == g && g !in st.locks
    requires var p := st.processes[w];
             && HoldsAll(st.locks, p.doing.got) && s !in p.doing.got
             && next == With(st, w, p.(available := p.available - {g}, serial := p.serial + 1,
                                       doing := Gathering(p.doing.plan, p.doing.got + {s})), st.locks[g := s.lock])
    ensures Collected(st, w, [g], next)
  {
    var p, r := st.processes[w], next.processes[w];
    assert Elements([g]) == {g};
    assert GpusOf(r.doing.got) == GpusOf(p.doing.got) + {g};
  }

  lemma CollectedJoin(st: State, w: nat, g: Gpu, mid: State, rest: seq<Gpu>, next: State)
    requires Collected(st, w, [g], mid) && Collected(mid, w, rest, next)
    ensures Collected(st, w, [g] + rest, next)
  {
    var p, r := st.processes[w], next.processes[w];
    var a, b := Elements([g]), Elements(rest);
    assert Elements([g] + rest) == a + b;
    assert p.available - a - b == p.available - (a + b);
    assert GpusOf(p.doing.got) + a + b == GpusOf(p.doing.got) + (a + b);
    assert next.processes == st.processes[w := r];
  }

  lemma CollectNone(st: State, w: nat)
    requires w in st.processes && st.processes[w].doing.Gathering? && HoldsAll(st.locks, st.processes[w].doing.got)
    ensures Collected(st, w, [], st)
  {
    assert Elements([]) == {};
    assert st.processes[w := st.processes[w]] == st.processes;
    assert st.processes[w].available - {} == st.processes[w].available;
  }

  lemma TakeFirst(plan: Plan, k: nat, gs: seq<Gpu>)
    requires gs != [] && MayTake(plan, k, gs) && Distinct(gs)
    ensures plan.Takes(k, gs[0]) && MayTake(plan, k + 1, gs[1..])
    ensures Distinct(gs[1..]) && gs[0] !in gs[1..]
  {
    assert plan.Takes(k + 0, gs[0]);
    forall i | 0 <= i < |gs| - 1 ensures plan.Takes(k + 1 + i, gs[1..][i]) && gs[1..][i] != gs[0] {
      assert plan.Takes(k + (1 + i), gs[1 + i]);
    }
  }

  lemma {:induction false} CollectAll(pool: set<Gpu>, st: State, w: nat, gs: seq<Gpu>) returns (events: seq<Event>, next: State)
    requires w in st.processes && st.processes[w].doing.Gathering?
    requires var a := st.processes[w].doing; HoldsAll(st.locks, a.got) && MayTake(a.plan, |a.got|, gs)
    requires Distinct(gs) && forall g :: g in gs ==> g in st.processes[w].available && g !in st.locks
    ensures SoloRun(pool, w, st, events, next) && Collected(st, w, gs, next)
    decreases |gs|
  {
    if gs == [] {
      events, next := [], st;
      CollectNone(st, w);
    } else {
      var g, rest := gs[0], gs[1..];
      var a := st.processes[w].doing;
      TakeFirst(a.plan, |a.got|, gs);
      var e1, mid := CollectOne(pool, st, w, g);
      assert Elements([g]) == {g};
      var e2;
      e2, next := CollectAll(pool, mid, w, rest);
      events := e1 + e2;
      Chain(pool, w, st, e1, mid, e2, next);
      CollectedJoin(st, w, g, mid, rest, next);
      assert [g] + rest == gs;
    }
  }

  lemma RollBackOne(pool: set<Gpu>, st: State, w: nat, s: Slot) returns (events: seq<Event>, next: State)
    requires w in st.processes && st.processes[w].doing.RollingBack?
    requires var got := st.processes[w].doing.got; HoldsAll(st.locks, got) && s in got
    ensures SoloRun(pool, w, st, events, next)
    ensures var p := st.processes[w];
            next == With(st, w, p.(available := p.available + {s.gpu}, doing := RollingBack(p.doing.got - {s})),
                         st.locks - {s.gpu})
  {
    var p := st.processes[w];
    var rest := p.doing.got - {s};
    var mid := With(st, w, p.(doing := RolledLock(rest, s.gpu)), st.locks - {s.gpu});
    OneEvent(pool, st, RollBackLock(w, s), mid);
    next := With(mid, w, p.(available := p.available + {s.gpu}, doing := RollingBack(rest)), mid.locks);
    OneEvent(pool, mid, RollBackMemory(w), next);
    events := [RollBackLock(w, s)] + [RollBackMemory(w)];
    Chain(pool, w, st, [RollBackLock(w, s)], mid, [RollBackMemory(w)], next);
    assert next.processes == st.processes[w := next.processes[w]];
  }

  /** Rolling back gives every collected lock and GPU back. */
  lemma {:induction false} RollBackAll(pool: set<Gpu>, st: State, w: nat) returns (events: seq<Event>, next: State)
    requires w in st.processes && st.processes[w].doing.RollingBack?
    requires HoldsAll(st.locks, st.processes[w].doing.got)
    ensures SoloRun(pool, w, st, events, next)
    ensures var p := st.processes[w];
            next == With(st, w, p.(available := p.available + GpusOf(p.doing.got), doing := Idle),
                         st.locks - GpusOf(p.doing.got))
    decreases st.processes[w].doing.got
  {
    var p := st.processes[w];
    if p.doing.got == {} {
      next := With(st, w, p.(doing := Idle), st.locks);
      OneEvent(pool, st, RollBackDone(w), next);
      events := [RollBackDone(w)];
      assert p.available + GpusOf(p.doing.got) == p.available;
      assert st.locks - GpusOf(p.doing.got) == st.locks;
    } else {
      var s :| s in p.doing.got;
      var rest := p.doing.got - {s};
      WithoutSlot(p.doing.got, s);
      var e1, mid := RollBackOne(pool, st, w, s);
      var e2;
      e2, next := RollBackAll(pool, mid, w);
      events := e1 + e2;
      Chain(pool, w, st, e1, mid, e2, next);
      assert p.available + {s.gpu} + GpusOf(rest) == p.available + GpusOf(p.doing.got);
      assert st.locks - {s.gpu} - GpusOf(rest) == st.locks - GpusOf(p.doing.got);
      assert next.processes == st.processes[w := next.processes[w]];
    }
  }

  /** An acquisition of the given plan can take all of gs, in order. */
  ghost predicate CanTake(st: State, w: nat, plan: Plan, gs: seq<Gpu>) {
    && w in st.processes && st.processes[w].doing.Idle?
    && MayTake(plan, 0, gs) && Distinct(gs)
    && forall g :: g in gs ==> g in st.processes[w].available && g !in st.locks
  }

  lemma BeginAndCollect(pool: set<Gpu>, st: State, w: nat, plan: Plan, gs: seq<Gpu>) returns (events: seq<Event>, next: State)
    requires CanTake(st, w, plan, gs)
    ensures SoloRun(pool, w, st, events, next)
    ensures w in next.processes && next.processes[w].doing.Gathering?
    ensures var p, q := st.processes[w], next.processes[w];
            && next == With(st, w, q, next.locks)
            && q == p.(available := p.available - Elements(gs), doing := Gathering(plan, q.doing.got), serial := q.serial)
            && GpusOf(q.doing.got) == Elements(gs) && |q.doing.got| == |gs| && HoldsAll(next.locks, q.doing.got)
            && next.locks.Keys == st.locks.Keys + Elements(gs)
            && forall g :: g in st.locks ==> next.locks[g] == st.locks[g]
  {
    var p := st.processes[w];
    var st1 := With(st, w, p.(doing := Gathering(plan, {})), st.locks);
    OneEvent(pool, st, BeginGather(w, plan), st1);
    var e2;
    e2, next := CollectAll(pool, st1, w, gs);
    events := [BeginGather(w, plan)] + e2;
    Chain(pool, w, st, [BeginGather(w, plan)], st1, e2, next);
    assert GpusOf({}) + Elements(gs) == Elements(gs);
    assert next.processes == st.processes[w := next.processes[w]];
  }

  /** The outcome of holding on to gs: they are slots, and nothing else changed. */
  ghost predicate Kept(st: State, w: nat, gs: set<Gpu>, next: State) {
    && w in st.processes && w in next.processes && next == With(st, w, next.processes[w], next.locks)
    && var p, q := st.processes[w], next.processes[w];
       && q == p.(available := p.available - gs, slots := q.slots, serial := q.serial)
       && p.slots <= q.slots && GpusOf(q.slots) == GpusOf(p.slots) + gs
       && next.locks.Keys == st.locks.Keys + gs
       && forall g :: g in st.locks ==> next.locks[g] == st.locks[g]
  }

  /** The outcome of giving everything back: only the serial number has moved on. */
  ghost predicate Restored(st: State, w: nat, next: State) {
    && w in st.processes && w in next.processes
    && next == With(st, w, st.processes[w].(serial := next.processes[w].serial), st.locks)
  }

  /** Collecting everything asked for, or running into an index outside the pool, leaves the GPUs in slots. */
  lemma GatherKeeps(pool: set<Gpu>, st: State, w: nat, plan: Plan, gs: seq<Gpu>) returns (events: seq<Event>, next: State)
    requires CanTake(st, w, plan, gs) && (|gs| == plan.Size() || plan.Raises(|gs|))
    ensures SoloRun(pool, w, st, events, next) && Kept(st, w, Elements(gs), next)
  {
    var e1, st1 := BeginAndCollect(pool, st, w, plan, gs);
    var p, q := st.processes[w], st1.processes[w];
    next := With(st, w, q.(slots := q.slots + q.doing.got, doing := Idle), st1.locks);
    assert next.processes == st1.processes[w := next.processes[w]];
    var last := if |gs| == plan.Size() then GatherDone(w) else GatherRaise(w);
    OneEvent(pool, st1, last, next);
    events := e1 + [last];
    Chain(pool, w, st, e1, st1, [last], next);
    assert GpusOf(q.slots + q.doing.got) == GpusOf(p.slots) + Elements(gs);
  }

  /** Why an acquisition cannot go on after gs: a held lock, or nothing left to take. */
  ghost predicate CannotGoOn(st: State, w: nat, plan: Plan, gs: seq<Gpu>, locked: Option<Gpu>)
    requires w in st.processes
  {
    var available := st.processes[w].available - Elements(gs);
    if locked.Some? then plan.Takes(|gs|, locked.value) && locked.value in available && locked.value in st.locks
    else plan.Blocked(|gs|, available)
  }

  /**
    Collecting gs and then failing, on a held lock or for lack of GPUs, restores the worker's
    memory and slots and the lock table exactly; only the serial number moves on.
   */
  lemma GatherFails(pool: set<Gpu>, st: State, w: nat, plan: Plan, gs: seq<Gpu>, locked: Option<Gpu>) returns (events: seq<Event>, next: State)
    requires CanTake(st, w, plan, gs) && CannotGoOn(st, w, plan, gs, locked)
    ensures SoloRun(pool, w, st, events, next) && Restored(st, w, next)
  {
    var e1, st1 := BeginAndCollect(pool, st, w, plan, gs);
    var e2, st2 := TurnBack(pool, st1, w, locked);
    Chain(pool, w, st, e1, st1, e2, st2);
    var e3;
    e3, next := RollBackAll(pool, st2, w);
    events := e1 + e2 + e3;
    Chain(pool, w, st, e1 + e2, st2, e3, next);
    RestoredAfter(st, w, Elements(gs), st1, next);
  }

  lemma RestoredAfter(st: State, w: nat, gs: set<Gpu>, mid: State, next: State)
    requires w in st.processes && w in mid.processes && w in next.processes && st.processes[w].doing.Idle?
    requires gs <= st.processes[w].available && gs !! st.locks.Keys
    requires mid == With(st, w, mid.processes[w], mid.locks)
    requires mid.locks.Keys == st.locks.Keys + gs && forall g :: g in st.locks ==> mid.locks[g] == st.locks[g]
    requires var p, q := st.processes[w], mid.processes[w];
             && q == p.(available := p.available - gs, doing := q.doing, serial := q.serial)
             && next == With(mid, w, q.(available := q.available + gs, doing := Idle), mid.locks - gs)
    ensures Restored(st, w, next)
  {
    var p := st.processes[w];
    assert p.available - gs + gs == p.available;
    assert mid.locks - gs == st.locks;
    assert next.processes == st.processes[w := next.processes[w]];
  }

  lemma TurnBack(pool: set<Gpu>, st: State, w: nat, locked: Option<Gpu>) returns (events: seq<Event>, next: State)
    requires w in st.processes && st.processes[w].doing.Gathering?
    requires var p := st.processes[w];
             var k, plan := |p.doing.got|, p.doing.plan;
             if locked.Some? then plan.Takes(k, locked.value) && locked.value in p.available && locked.value in st.locks
             else plan.Blocked(k, p.available)
    ensures SoloRun(pool, w, st, events, next)
    ensures var p := st.processes[w]; next == With(st, w, p.(doing := RollingBack(p.doing.got)), st.locks)
  {
    var p := st.processes[w];
    next := With(st, w, p.(doing := RollingBack(p.doing.got)), st.locks);
    if locked.None? {
      OneEvent(pool, st, GatherGiveUp(w), next);
      events := [GatherGiveUp(w)];
    } else {
      var g := locked.value;
      var mid := With(st, w, p.(available := p.available - {g}, doing := GatherTook(p.doing.plan, p.doing.got, g)), st.locks);
      OneEvent(pool, st, GatherTake(w, g), mid);
      assert p.available - {g} + {g} == p.available;
      assert mid.processes[w := next.processes[w]] == next.processes;
      OneEvent(pool, mid, GatherTryLock(w), next);
      events := [GatherTake(w, g)] + [GatherTryLock(w)];
      Chain(pool, w, st, [GatherTake(w, g)], mid, [GatherTryLock(w)], next);
    }
  }

  /** How many GPUs of a ranking the grabbing loop gets before it stops. */
  function Prefix(node: string, ranked: seq<A.GpuInfo>, busy: set<Gpu>, count: nat): (n: nat)
    ensures n <= |ranked| && n <= count
    ensures N.CanGather(node, ranked, busy, n)
    ensures n < count && n < |ranked| ==> LockKey(node, ranked[n].index) in busy
  {
    if count == 0 || ranked == [] || LockKey(node, ranked[0].index) in busy then 0
    else
      var m := Prefix(node, ranked[1..], busy, count - 1);
      assert forall i :: 1 <= i < m + 1 ==> ranked[i] == ranked[1..][i - 1];
      m + 1
  }

  function KeySeq(node: string, gpus: seq<A.GpuInfo>): seq<Gpu> {
    seq(|gpus|, i requires 0 <= i < |gpus| => LockKey(node, gpus[i].index))
  }

  lemma KeySeqElements(node: string, gpus: seq<A.GpuInfo>)
    ensures Elements(KeySeq(node, gpus)) == N.KeysOn(node, gpus)
  {
    forall g | g in gpus ensures LockKey(node, g.index) in KeySeq(node, gpus) {
      var i :| 0 <= i < |gpus| && gpus[i] == g;
      assert KeySeq(node, gpus)[i] == LockKey(node, g.index);
    }
  }

  /** The first n GPUs of a ranking can be taken by a request for at least n. */
  lemma RankedCanBeTaken(st: State, w: nat, want: set<Gpu>, node: string, ranked: seq<A.GpuInfo>, count: nat, n: nat)
    requires w in st.processes && st.processes[w].doing.Idle? && A.NoRepeats(ranked)
    requires N.KeysOn(node, ranked) == want * st.processes[w].available
    requires n <= count && N.CanGather(node, ranked, st.locks.Keys, n)
    ensures CanTake(st, w, Any(want, count), KeySeq(node, ranked[..n]))
  {
    forall i | 0 <= i < n ensures LockKey(node, ranked[i].index) in want * st.processes[w].available {
      assert ranked[i] in ranked;
    }
  }

  lemma RankedUsedUp(st: State, w: nat, want: set<Gpu>, node: string, ranked: seq<A.GpuInfo>, count: nat, n: nat)
    requires w in st.processes && A.NoRepeats(ranked) && n < count && n <= |ranked|
    requires N.KeysOn(node, ranked) == want * st.processes[w].available
    requires n < |ranked| ==> LockKey(node, ranked[n].index) in st.locks
    ensures CannotGoOn(st, w, Any(want, count), KeySeq(node, ranked[..n]),
                       if n < |ranked| then Some(LockKey(node, ranked[n].index)) else None)
  {
    KeySeqElements(node, ranked[..n]);
    if n < |ranked| {
      assert ranked[n] in ranked;
      forall g | g in ranked[..n] ensures g.index != ranked[n].index {
        var i :| 0 <= i < n && ranked[i] == g;
      }
      var key := LockKey(node, ranked[n].index);
      assert key in N.KeysOn(node, ranked) && key !in N.KeysOn(node, ranked[..n]);
    } else {
      assert ranked[..n] == ranked;
    }
  }

  /**
    The outcome that GatherNode promises is the outcome of a solo run of the protocol: all of the
    first count GPUs become slots, or memory, slots and locks are restored.
   */
  lemma GatherNodeIsProtocolRun(pool: set<Gpu>, st: State, w: nat, want: set<Gpu>, node: string, ranked: seq<A.GpuInfo>, count: nat)
    returns (events: seq<Event>, next: State)
    requires w in st.processes && st.processes[w].doing.Idle? && A.NoRepeats(ranked)
    requires N.KeysOn(node, ranked) == want * st.processes[w].available
    ensures SoloRun(pool, w, st, events, next)
    ensures if N.CanGather(node, ranked, st.locks.Keys, count)
            then Kept(st, w, N.KeysOn(node, ranked[..count]), next)
            else Restored(st, w, next)
  {
    var n := Prefix(node, ranked, st.locks.Keys, count);
    RankedCanBeTaken(st, w, want, node, ranked, count, n);
    KeySeqElements(node, ranked[..n]);
    if N.CanGather(node, ranked, st.locks.Keys, count) {
      assert n == count;
      events, next := GatherKeeps(pool, st, w, Any(want, count), KeySeq(node, ranked[..n]));
    } else {
      assert n < count;
      RankedUsedUp(st, w, want, node, ranked, count, n);
      events, next := GatherFails(pool, st, w, Any(want, count), KeySeq(node, ranked[..n]),
                                  if n < |ranked| then Some(LockKey(node, ranked[n].index)) else None);
    }
  }

  // ---- the pinned list ----

  function PinnedKeys(node: string, indices: seq<int>): seq<Gpu> {
    seq(|indices|, i requires 0 <= i < |indices| => LockKey(node, indices[i]))
  }

  function KeysAt(node: string, indices: set<int>): set<Gpu> {
    set i | i in indices :: LockKey(node, i)
  }

  /** The indices of a node that a process has in memory. */
  function AvailableOn(node: string, p: Process): set<int> {
    set g | g in p.available && g.node == node :: g.index
  }

  lemma AvailableKey(node: string, p: Process, i: int)
    ensures i in AvailableOn(node, p) <==> LockKey(node, i) in p.available
  {
    if LockKey(node, i) in p.available {
      assert LockKey(node, i).index == i;
    }
  }

  /** How far the loop over pinned indices gets. */
  lemma LongestPin(node: string, owned: set<int>, avail: set<int>, busy: set<Gpu>, indices: seq<int>) returns (n: nat)
    ensures n <= |indices| && N.CanPin(node, owned, avail, busy, indices[..n])
    ensures n < |indices| ==> !N.CanPin(node, owned, avail, busy, indices[..n + 1])
  {
    n := 0;
    while n < |indices| && N.CanPin(node, owned, avail, busy, indices[..n + 1])
      invariant n <= |indices| && N.CanPin(node, owned, avail, busy, indices[..n])
    {
      n := n + 1;
    }
  }

  lemma PinnableCanBeTaken(st: State, w: nat, node: string, owned: set<int>, indices: seq<int>, n: nat)
    requires w in st.processes && st.processes[w].doing.Idle? && n <= |indices|
    requires N.CanPin(node, owned, AvailableOn(node, st.processes[w]), st.locks.Keys, indices[..n])
    ensures CanTake(st, w, Pinned(KeysAt(node, owned), PinnedKeys(node, indices)), PinnedKeys(node, indices[..n]))
  {
    var p := st.processes[w];
    var gs := PinnedKeys(node, indices[..n]);
    forall i | 0 <= i < n
      ensures gs[i] in p.available && gs[i] !in st.locks && indices[i] in owned
      ensures forall j :: 0 <= j < i ==> gs[j] != gs[i]
    {
      assert indices[..n][i] == indices[i];
      AvailableKey(node, p, indices[i]);
      assert forall j :: 0 <= j < i ==> indices[..n][..i][j] == indices[j];
    }
  }

  lemma PinnedStops(st: State, w: nat, node: string, owned: set<int>, indices: seq<int>, n: nat) returns (locked: Option<Gpu>)
    requires w in st.processes && n < |indices| && indices[n] in owned
    requires N.CanPin(node, owned, AvailableOn(node, st.processes[w]), st.locks.Keys, indices[..n])
    requires !N.CanPin(node, owned, AvailableOn(node, st.processes[w]), st.locks.Keys, indices[..n + 1])
    ensures CannotGoOn(st, w, Pinned(KeysAt(node, owned), PinnedKeys(node, indices)), PinnedKeys(node, indices[..n]), locked)
  {
    var p := st.processes[w];
    var g, before := LockKey(node, indices[n]), Elements(PinnedKeys(node, indices[..n]));
    N.PinPrefix(node, owned, AvailableOn(node, p), st.locks.Keys, indices, n);
    AvailableKey(node, p, indices[n]);
    assert PinnedKeys(node, indices)[n] == g;
    if indices[n] in indices[..n] {
      var i :| 0 <= i < n && indices[i] == indices[n];
      assert PinnedKeys(node, indices[..n])[i] == g;
      assert g in before;
    }
    locked := if g in p.available - before then Some(g) else None;
  }

  /**
    The outcomes that TryPin promises are the outcomes of solo runs of the protocol: every index
    becomes a slot; or an index outside the pool raises with the earlier ones left in slots nobody
    gets; or memory, slots and locks are restored.
   */
  lemma TryPinIsProtocolRun(pool: set<Gpu>, st: State, w: nat, node: string, owned: set<int>, indices: seq<int>)
    returns (events: seq<Event>, next: State, n: nat)
    requires w in st.processes && st.processes[w].doing.Idle?
    ensures SoloRun(pool, w, st, events, next) && n <= |indices|
    ensures var avail, busy := AvailableOn(node, st.processes[w]), st.locks.Keys;
            && (N.CanPin(node, owned, avail, busy, indices) <==> n == |indices|)
            && (N.Leaks(node, owned, avail, busy, indices) <==> n < |indices| && indices[n] !in owned)
    ensures n == |indices| || indices[n] !in owned ==> Kept(st, w, Elements(PinnedKeys(node, indices[..n])), next)
    ensures n < |indices| && indices[n] in owned ==> Restored(st, w, next)
  {
    var p := st.processes[w];
    n := LongestPin(node, owned, AvailableOn(node, p), st.locks.Keys, indices);
    var plan, gs := Pinned(KeysAt(node, owned), PinnedKeys(node, indices)), PinnedKeys(node, indices[..n]);
    PinnableCanBeTaken(st, w, node, owned, indices, n);
    N.LeaksAtLongest(node, owned, AvailableOn(node, p), st.locks.Keys, indices, n);
    if n == |indices| || indices[n] !in owned {
      events, next := GatherKeeps(pool, st, w, plan, gs);
    } else {
      var locked := PinnedStops(st, w, node, owned, indices, n);
      events, next := GatherFails(pool, st, w, plan, gs, locked);
    }
  }

  // ---- acquisitions end ----

  function Lacking(plan: Plan, k: nat): nat {
    if k < plan.Size() then plan.Size() - k else 0
  }

  /** How many steps an acquisition still needs at most, while the other threads stand still. */
  function Remaining(p: Process): nat {
    match p.doing
    case Idle => 0
    case Scanning(want, parked) => 2 + 2 * |parked| + 4 * |p.available * want|
    case ScanTook(want, parked, _) => 5 + 2 * |parked| + 4 * |p.available * want|
    case Unparking(parked, todo, _, again) => 1 + |todo| + if again then |parked| + 1 else 0
    case Gathering(plan, got) => 2 + 2 * |got| + 4 * Lacking(plan, |got|)
    case GatherTook(plan, got, _) => 5 + 2 * |got| + 4 * Lacking(plan, |got| + 1)
    case RollingBack(got) => 1 + 2 * |got|
    case RolledLock(got, _) => 2 + 2 * |got|
  }

  predicate Begins(e: Event) {
    e.BeginScan? || e.BeginGather?
  }

  /** The acquiring thread of a process goes on. */
  predicate GoesOn(e: Event, p: Process, busy: bool) {
    !Begins(e) && (ScanStep(e, p, busy).Some? || GatherStep(e, p, busy).Some? || RollBackStep(e, p).Some?)
  }

  lemma ScanGetsCloser(e: Event, p: Process, busy: bool)
    requires !Begins(e) && ScanStep(e, p, busy).Some?
    ensures Remaining(ScanStep(e, p, busy).value.process) < Remaining(p)
  {
    var q := ScanStep(e, p, busy).value.process;
    if e.ScanTake? {
      assert q.available * p.doing.want == p.available * p.doing.want - {e.gpu};
      assert |q.available * p.doing.want| == |p.available * p.doing.want| - 1;
    } else if e.ScanTryLock? {
      assert |p.doing.parked + {p.doing.gpu}| <= |p.doing.parked| + 1;
    } else if e.UnparkOne? {
      assert |q.doing.todo| == |p.doing.todo| - 1;
    }
  }

  lemma GatherGetsCloser(e: Event, p: Process, busy: bool)
    requires !Begins(e) && OldSerials(p) && GatherStep(e, p, busy).Some?
    ensures Remaining(GatherStep(e, p, busy).value.process) < Remaining(p)
  {
    if e.GatherTryLock? && !busy {
      assert Fresh(p, e.w, p.doing.gpu) !in Locked(p);
    }
  }

  lemma RollBackGetsCloser(e: Event, p: Process)
    requires RollBackStep(e, p).Some?
    ensures Remaining(RollBackStep(e, p).value.process) < Remaining(p)
  {
  }

  /** Whatever the thread does next, it gets closer to the end of its acquisition. */
  lemma GetsCloser(e: Event, p: Process, busy: bool)
    requires OldSerials(p) && GoesOn(e, p, busy)
    ensures LocalStep(e, p, busy).Some? && Remaining(LocalStep(e, p, busy).value.process) < Remaining(p)
  {
    if ScanStep(e, p, busy).Some? {
      ScanGetsCloser(e, p, busy);
    } else if GatherStep(e, p, busy).Some? {
      GatherGetsCloser(e, p, busy);
    } else {
      RollBackGetsCloser(e, p);
    }
  }

  lemma ScanCanGoOn(w: nat, p: Process, busy: bool) returns (e: Event)
    requires p.doing.Scanning? || p.doing.ScanTook? || p.doing.Unparking?
    ensures e.w == w && !Begins(e) && ScanStep(e, p, busy).Some?
  {
    match p.doing {
      case Scanning(want, _) =>
        e := ScanExhausted(w);
        if p.available * want != {} {
          var g :| g in p.available * want;
          e := ScanTake(w, g);
        }
      case ScanTook(_, _, _) =>
        e := ScanTryLock(w);
      case Unparking(_, todo, _, _) =>
        e := UnparkDone(w);
        if todo != {} {
          var g :| g in todo;
          e := UnparkOne(w, g);
        }
    }
  }

  lemma GatherCanGoOn(w: nat, p: Process, busy: bool) returns (e: Event)
    requires p.doing.Gathering?
    ensures e.w == w && !Begins(e) && GatherStep(e, p, busy).Some?
  {
    var plan, k := p.doing.plan, |p.doing.got|;
    if k >= plan.Size() {
      e := GatherDone(w);
    } else if plan.Raises(k) {
      e := GatherRaise(w);
    } else if plan.Blocked(k, p.available) {
      e := GatherGiveUp(w);
    } else if plan.Pinned? {
      e := GatherTake(w, plan.list[k]);
    } else {
      var g :| g in p.available * plan.want;
      e := GatherTake(w, g);
    }
  }

  lemma RollBackCanGoOn(w: nat, p: Process) returns (e: Event)
    requires p.doing.RollingBack? || p.doing.RolledLock?
    ensures e.w == w && RollBackStep(e, p).Some?
  {
    e := if p.doing.RolledLock? then RollBackMemory(w) else RollBackDone(w);
    if p.doing.got != {} && p.doing.RollingBack? {
      var s :| s in p.doing.got;
      e := RollBackLock(w, s);
    }
  }

  /** There is always a next step, whatever locks the other workers hold. */
  lemma CanGoOn(st: State, w: nat) returns (e: Event)
    requires w in st.processes && !st.processes[w].doing.Idle?
    ensures e.w == w && GoesOn(e, st.processes[w], Busy(st.locks, e, st.processes[w]))
  {
    var p := st.processes[w];
    if p.doing.Scanning? || p.doing.ScanTook? || p.doing.Unparking? {
      var busy := p.doing.ScanTook? && p.doing.gpu in st.locks;
      e := ScanCanGoOn(w, p, busy);
      assert ScanStep(e, p, !busy).Some?;
    } else if p.doing.Gathering? {
      e := GatherCanGoOn(w, p, false);
    } else if p.doing.GatherTook? {
      e := GatherTryLock(w);
    } else {
      e := RollBackCanGoOn(w, p);
    }
  }

  /** The events of the run are steps of w's acquisition. */
  ghost predicate OnlyAcquiring(pool: set<Gpu>, st: State, w: nat, events: seq<Event>)
    decreases |events|
  {
    events == [] ||
    (&& events[0].w == w && w in st.processes
     && GoesOn(events[0], st.processes[w], Busy(st.locks, events[0], st.processes[w]))
     && Apply(pool, st, events[0]).Some? && OnlyAcquiring(pool, Apply(pool, st, events[0]).value, w, events[1..]))
  }

  lemma AcquiringStep(pool: set<Gpu>, st: State, e: Event)
    requires LockInv(st) && e.w in st.processes
    requires GoesOn(e, st.processes[e.w], Busy(st.locks, e, st.processes[e.w]))
    ensures !e.Start? && !e.Crash? && Apply(pool, st, e).Some?
    ensures var next := Apply(pool, st, e).value;
            LockInv(next) && e.w in next.processes && Remaining(next.processes[e.w]) < Remaining(st.processes[e.w])
  {
    var p := st.processes[e.w];
    assert Holds(st.locks, e.w, p);
    GetsCloser(e, p, Busy(st.locks, e, p));
    LockInvStep(pool, st, e, Apply(pool, st, e).value);
  }

  /** However the thread proceeds, its acquisition ends within a number of steps known in advance. */
  lemma {:induction false} AcquisitionsEnd(pool: set<Gpu>, st: State, w: nat, events: seq<Event>)
    requires LockInv(st) && w in st.processes && OnlyAcquiring(pool, st, w, events)
    ensures |events| <= Remaining(st.processes[w])
    decreases |events|
  {
    if events != [] {
      AcquiringStep(pool, st, events[0]);
      AcquisitionsEnd(pool, Apply(pool, st, events[0]).value, w, events[1..]);
    }
  }

  /** And it can always get there: with any locks held by others, a worker's own steps end its acquisition. */
  lemma {:induction false} CanAlwaysFinish(pool: set<Gpu>, st: State, w: nat) returns (events: seq<Event>, next: State)
    requires LockInv(st) && w in st.processes
    ensures SoloRun(pool, w, st, events, next) && OnlyAcquiring(pool, st, w, events)
    ensures w in next.processes && next.processes[w].doing.Idle?
    decreases Remaining(st.processes[w])
  {
    if st.processes[w].doing.Idle? {
      return [], st;
    }
    var e := CanGoOn(st, w);
    AcquiringStep(pool, st, e);
    var mid := Apply(pool, st, e).value;
    OneEvent(pool, st, e, mid);
    var rest;
    rest, next := CanAlwaysFinish(pool, mid, w);
    events := [e] + rest;
    Chain(pool, w, st, [e], mid, rest, next);
    assert events[1..] == rest;
  }

  // ---- a second release that does harm ----

  /** Worker 0 is idle and could take g. */
  ghost predicate Ready(st: State, g: Gpu) {
    LockInv(st) && 0 in st.processes && st.processes[0].doing.Idle? && g in st.processes[0].available && g !in st.locks
  }

  lemma TakeOne(pool: set<Gpu>, st: State, g: Gpu) returns (events: seq<Event>, next: State, s: Slot)
    requires Ready(st, g)
    ensures SoloRun(pool, 0, st, events, next) && Kept(st, 0, {g}, next) && LockInv(next)
    ensures s.gpu == g && s in next.processes[0].slots
  {
    events, next := GatherKeeps(pool, st, 0, Any({g}, 1), [g]);
    assert Elements([g]) == {g};
    RunFromKeepsLockInv(pool, st, events);
    assert g in GpusOf(next.processes[0].slots);
    s :| s in next.processes[0].slots && s.gpu == g;
  }

  /** The two steps of a release, of a slot that owns its lock. */
  lemma ReturnSlot(pool: set<Gpu>, st: State, s: Slot) returns (events: seq<Event>, next: State)
    requires 0 in st.processes && s in st.processes[0].slots && s.gpu in st.locks && st.locks[s.gpu] == s.lock
    ensures SoloRun(pool, 0, st, events, next) && 0 in next.processes && next.locks == st.locks - {s.gpu}
    ensures var p, q := st.processes[0], next.processes[0];
            q.doing == p.doing && s in q.released && s.gpu in q.available
  {
    var p := st.processes[0];
    var q := p.(slots := p.slots - {s}, returning := p.returning + {s}, released := p.released + {s},
                available := p.available + {s.gpu});
    var mid := With(st, 0, q, st.locks);
    OneEvent(pool, st, ReturnMemory(0, s), mid);
    next := With(mid, 0, q.(returning := q.returning - {s}), Unlock(st.locks, s));
    OneEvent(pool, mid, ReturnLock(0, s), next);
    events := [ReturnMemory(0, s)] + [ReturnLock(0, s)];
    Chain(pool, 0, st, [ReturnMemory(0, s)], mid, [ReturnLock(0, s)], next);
  }

  lemma ReleaseOne(pool: set<Gpu>, st: State, s: Slot) returns (events: seq<Event>, next: State)
    requires LockInv(st) && 0 in st.processes && st.processes[0].doing.Idle? && s in st.processes[0].slots
    ensures SoloRun(pool, 0, st, events, next) && Ready(next, s.gpu) && s in next.processes[0].released
  {
    assert Holds(st.locks, 0, st.processes[0]) && s in Locked(st.processes[0]);
    events, next := ReturnSlot(pool, st, s);
    RunFromKeepsLockInv(pool, st, events);
  }

  /** Take g, release it, and take it again; the first slot is then stale. */
  lemma TakeTwice(pool: set<Gpu>, st: State, g: Gpu) returns (events: seq<Event>, next: State, stale: Slot, held: Slot)
    requires Ready(st, g)
    ensures SoloRun(pool, 0, st, events, next) && 0 in next.processes && stale.gpu == held.gpu == g
    ensures stale in next.processes[0].released && held in next.processes[0].slots
  {
    var e1, st1, e2, st2, e3;
    e1, st1, stale := TakeOne(pool, st, g);
    e2, st2 := ReleaseOne(pool, st1, stale);
    Chain(pool, 0, st, e1, st1, e2, st2);
    e3, next, held := TakeOne(pool, st2, g);
    events := e1 + e2 + e3;
    Chain(pool, 0, st, e1 + e2, st2, e3, next);
  }

  lemma OnOfferAndHeld(pool: set<Gpu>, p: Process, s: Slot)
    requires s in p.slots && s.gpu in p.available
    ensures !MemInv(pool, p)
  {
    assert s.gpu in GpusOf(p.slots);
  }

  /**
    Acquire g, release it, acquire it again, and release the first slot a second time: g is then on
    offer in memory while a caller holds it.
   */
  lemma DoubleReleaseHarms(pool: set<Gpu>, g: Gpu) returns (events: seq<Event>, next: State)
    requires g in pool
    ensures Run(pool, events) == Some(next) && 0 in next.processes && !AllMemory(pool, next)
    ensures g in next.processes[0].available && g in GpusOf(next.processes[0].slots)
  {
    var st1 := State(map[0 := Process(pool, {}, {}, {}, {}, Idle, 0)], map[]);
    assert [Start(0)][..0] == [];
    assert Run(pool, [Start(0)]) == Some(st1);
    RunKeepsLockInv(pool, [Start(0)]);
    var e2, st2, stale, held := TakeTwice(pool, st1, g);
    var p := st2.processes[0];
    next := With(st2, 0, p.(available := p.available + {g}), st2.locks);
    OneEvent(pool, st2, StrayReturn(0, stale), next);
    var rest := e2 + [StrayReturn(0, stale)];
    Chain(pool, 0, st1, e2, st2, [StrayReturn(0, stale)], next);
    events := [Start(0)] + rest;
    RunInTwo(pool, [Start(0)], rest);
    assert held in next.processes[0].slots;
    OnOfferAndHeld(pool, next.processes[0], held);
  }
}
