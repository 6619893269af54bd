/**
  All-or-nothing under every interleaving. While one thread of a worker is inside an acquisition,
  other workers do anything at all and other threads of the same worker return and probe slots. The
  acquisition still hands out exactly what it was asked for, or gives back everything it took.
 */
module Atomicity {
  import opened Base
  import opened SlotProtocol

  /** What an acquisition is asked for. */
  datatype Goal = ScanFor(want: set<Gpu>) | GatherFor(plan: Plan)

  function Begin(goal: Goal, w: nat): Event {
    match goal
    case ScanFor(want) => BeginScan(w, want)
    case GatherFor(plan) => BeginGather(w, plan)
  }

  // ---- what other threads of the worker did in the meantime ----

  /** The GPU that an event puts back into the worker's memory. */
  function Gives(e: Event, w: nat): set<Gpu> {
    if e.w == w && (e.ReturnMemory? || e.StrayReturn?) then {e.slot.gpu} else {}
  }

  /** The slot that an event returns. */
  function Returns(e: Event, w: nat): set<Slot> {
    if e.w == w && e.ReturnMemory? then {e.slot} else {}
  }

  function Back(events: seq<Event>, w: nat): set<Gpu> {
    if events == [] then {} else Gives(events[0], w) + Back(events[1..], w)
  }

  function Returned(events: seq<Event>, w: nat): set<Slot> {
    if events == [] then {} else Returns(events[0], w) + Returned(events[1..], w)
  }

  /** After every event of the run the worker lives and is still inside its acquisition. */
  ghost predicate StaysBusy(pool: set<Gpu>, st: State, w: nat, events: seq<Event>)
    decreases |events|
  {
    && w in st.processes && !st.processes[w].doing.Idle?
    && (events == [] ||
        (!LeavesOrEnters(events[0], w) && Apply(pool, st, events[0]).Some?
         && StaysBusy(pool, Apply(pool, st, events[0]).value, w, events[1..])))
  }

  predicate LeavesOrEnters(e: Event, w: nat) {
    e.w == w && (e.Crash? || e.Start?)
  }

  // ---- the account of an acquisition under way ----

  ghost predicate ParkedInOrder(p: Process) {
    && (p.doing.Unparking? ==> p.doing.todo <= p.doing.parked <= p.available + p.doing.todo)
    && (SecondUnparking(p.doing) ==> p.doing.todo <= p.available)
  }

  /** Since p0, memory has gained back and lost what the acquisition holds; slots have lost ret. */
  ghost predicate Account(p0: Process, p: Process, back: set<Gpu>, ret: set<Slot>) {
    && p.available + Missing(p.doing) == p0.available + back
    && p.slots == p0.slots - ret
    && ParkedInOrder(p)
  }

  function Elements(gs: seq<Gpu>): set<Gpu> {
    set g | g in gs
  }

  /** got is as much of the plan as its size says. */
  ghost predicate Progress(plan: Plan, got: set<Slot>) {
    && |got| <= plan.Size() && GpusOf(got) <= plan.want
    && (plan.Pinned? ==> GpusOf(got) == Elements(plan.list[..|got|]))
  }

  ghost predicate OnCourse(goal: Goal, a: Acquisition) {
    match a
    case Idle => false
    case Scanning(want, _) => goal == ScanFor(want)
    case ScanTook(want, _, g) => goal == ScanFor(want) && g in want
    case Unparking(_, _, found, _) => goal.ScanFor? && (found.Some? ==> found.value.gpu in goal.want)
    case Gathering(plan, got) => goal == GatherFor(plan) && Progress(plan, got)
    case GatherTook(plan, got, g) => goal == GatherFor(plan) && Progress(plan, got) && plan.Takes(|got|, g)
    case RollingBack(_) => goal.GatherFor?
    case RolledLock(_, _) => goal.GatherFor?
  }

  /** The account after a step e of some thread of the worker. */
  ghost predicate StillAccounted(e: Event, goal: Goal, p0: Process, q: Process, back: set<Gpu>, ret: set<Slot>) {
    && Account(p0, q, back + Gives(e, e.w), ret + Returns(e, e.w))
    && OnCourse(goal, q.doing)
  }

  lemma ScanAccount(e: Event, goal: Goal, p0: Process, p: Process, busy: bool, back: set<Gpu>, ret: set<Slot>)
    requires Account(p0, p, back, ret) && OnCourse(goal, p.doing) && ScanStep(e, p, busy).Some?
    requires !ScanStep(e, p, busy).value.process.doing.Idle?
    ensures StillAccounted(e, goal, p0, ScanStep(e, p, busy).value.process, back, ret)
  {
    assert back + {} == back && ret + {} == ret;
    var q := ScanStep(e, p, busy).value.process;
    assert q.available + Missing(q.doing) == p.available + Missing(p.doing);
  }

  lemma ProgressMore(plan: Plan, got: set<Slot>, s: Slot)
    requires Progress(plan, got) && plan.Takes(|got|, s.gpu) && s !in got
    ensures Progress(plan, got + {s})
  {
    assert GpusOf(got + {s}) == GpusOf(got) + {s.gpu};
    if plan.Pinned? {
      var k := |got|;
      assert plan.list[..k + 1] == plan.list[..k] + [plan.list[k]];
    }
  }

  /** GPUs moved between memory and the acquisition's own account. */
  lemma Shifted(p0: Process, p: Process, q: Process, back: set<Gpu>, ret: set<Slot>)
    requires Account(p0, p, back, ret) && q.slots == p.slots && !q.doing.Unparking?
    requires q.available + Missing(q.doing) == p.available + Missing(p.doing)
    ensures Account(p0, q, back + {}, ret + {})
  {
    assert back + {} == back && ret + {} == ret;
  }

  lemma GatherLockAccount(e: Event, goal: Goal, p0: Process, p: Process, back: set<Gpu>, ret: set<Slot>)
    requires Account(p0, p, back, ret) && OnCourse(goal, p.doing) && OldSerials(p)
    requires e.GatherTryLock? && p.doing.GatherTook?
    ensures StillAccounted(e, goal, p0, GatherStep(e, p, false).value.process, back, ret)
  {
    var q := GatherStep(e, p, false).value.process;
    var s := Fresh(p, e.w, p.doing.gpu);
    assert s !in Locked(p);
    ProgressMore(p.doing.plan, p.doing.got, s);
    assert GpusOf(q.doing.got) == GpusOf(p.doing.got) + {p.doing.gpu};
    Shifted(p0, p, q, back, ret);
  }

  lemma GatherAccount(e: Event, goal: Goal, p0: Process, p: Process, busy: bool, back: set<Gpu>, ret: set<Slot>)
    requires Account(p0, p, back, ret) && OnCourse(goal, p.doing) && OldSerials(p) && GatherStep(e, p, busy).Some?
    requires !GatherStep(e, p, busy).value.process.doing.Idle?
    ensures StillAccounted(e, goal, p0, GatherStep(e, p, busy).value.process, back, ret)
  {
    if e.GatherTryLock? && !busy {
      GatherLockAccount(e, goal, p0, p, back, ret);
    } else {
      Shifted(p0, p, GatherStep(e, p, busy).value.process, back, ret);
    }
  }

  lemma RollBackAccount(e: Event, goal: Goal, p0: Process, p: Process, back: set<Gpu>, ret: set<Slot>)
    requires Account(p0, p, back, ret) && OnCourse(goal, p.doing) && RollBackStep(e, p).Some?
    requires !RollBackStep(e, p).value.process.doing.Idle?
    ensures StillAccounted(e, goal, p0, RollBackStep(e, p).value.process, back, ret)
  {
    assert back + {} == back && ret + {} == ret;
    var q := RollBackStep(e, p).value.process;
    if e.RollBackLock? {
      assert GpusOf(p.doing.got - {e.slot}) + {e.slot.gpu} == GpusOf(p.doing.got);
    }
    assert q.available + Missing(q.doing) == p.available + Missing(p.doing);
  }

  lemma OtherAccount(e: Event, goal: Goal, p0: Process, p: Process, busy: bool, back: set<Gpu>, ret: set<Slot>)
    requires Account(p0, p, back, ret) && OnCourse(goal, p.doing) && OtherStep(e, p, busy).Some?
    ensures StillAccounted(e, goal, p0, OtherStep(e, p, busy).value.process, back, ret)
  {
    assert back + {} == back && ret + {} == ret;
    var q := OtherStep(e, p, busy).value.process;
    assert q.doing == p.doing;
    assert q.available + Missing(q.doing) == p.available + Missing(p.doing) + Gives(e, e.w);
  }

  lemma OwnAccount(e: Event, goal: Goal, p0: Process, p: Process, busy: bool, back: set<Gpu>, ret: set<Slot>)
    requires Account(p0, p, back, ret) && OnCourse(goal, p.doing) && OldSerials(p) && LocalStep(e, p, busy).Some?
    requires !LocalStep(e, p, busy).value.process.doing.Idle?
    ensures StillAccounted(e, goal, p0, LocalStep(e, p, busy).value.process, back, ret)
  {
    if ScanStep(e, p, busy).Some? {
      ScanAccount(e, goal, p0, p, busy, back, ret);
    } else if GatherStep(e, p, busy).Some? {
      GatherAccount(e, goal, p0, p, busy, back, ret);
    } else if RollBackStep(e, p).Some? {
      RollBackAccount(e, goal, p0, p, back, ret);
    } else {
      OtherAccount(e, goal, p0, p, busy, back, ret);
    }
  }

  // ---- the end of an acquisition ----

  /** What was asked for is what was got, one slot per GPU. */
  ghost predicate Fulfils(goal: Goal, got: set<Slot>) {
    match goal
    case ScanFor(want) => |got| == 1 && GpusOf(got) <= want
    case GatherFor(plan) => |got| == plan.Size() && Progress(plan, got)
  }

  /** A pinned index outside the node's pool raised, and the earlier ones stayed taken. */
  ghost predicate Leaked(goal: Goal, got: set<Slot>) {
    goal.GatherFor? && goal.plan.Raises(|got|) && Progress(goal.plan, got)
  }

  /** The worker's memory and slots differ from before by got and by what other threads returned. */
  ghost predicate Outcome(p0: Process, q: Process, back: set<Gpu>, ret: set<Slot>, got: set<Slot>) {
    q.doing.Idle? && q.slots == p0.slots - ret + got && q.available + GpusOf(got) == p0.available + back
  }

  /** How a step may end an acquisition. */
  ghost predicate Ended(goal: Goal, p0: Process, p: Process, q: Process, back: set<Gpu>, ret: set<Slot>, got: set<Slot>) {
    && Outcome(p0, q, back, ret, got) && got <= InFlight(p.doing)
    && (got == {} || Fulfils(goal, got) || Leaked(goal, got))
  }

  lemma ScanEnds(e: Event, goal: Goal, p0: Process, p: Process, busy: bool, back: set<Gpu>, ret: set<Slot>) returns (got: set<Slot>)
    requires Account(p0, p, back, ret) && OnCourse(goal, p.doing) && ScanStep(e, p, busy).Some?
    requires ScanStep(e, p, busy).value.process.doing.Idle?
    ensures Ended(goal, p0, p, ScanStep(e, p, busy).value.process, back, ret, got)
  {
    assert e.UnparkDone?;
    got := if p.doing.found.Some? then {p.doing.found.value} else {};
    assert GpusOf(got) == if p.doing.found.Some? then {p.doing.found.value.gpu} else {};
    assert p.slots + {} == p.slots;
  }

  lemma GatherEnds(e: Event, goal: Goal, p0: Process, p: Process, busy: bool, back: set<Gpu>, ret: set<Slot>)
    requires Account(p0, p, back, ret) && OnCourse(goal, p.doing) && GatherStep(e, p, busy).Some?
    requires GatherStep(e, p, busy).value.process.doing.Idle?
    ensures Ended(goal, p0, p, GatherStep(e, p, busy).value.process, back, ret, InFlight(p.doing))
  {
    assert e.GatherDone? || e.GatherRaise?;
  }

  lemma RollBackEnds(e: Event, goal: Goal, p0: Process, p: Process, back: set<Gpu>, ret: set<Slot>)
    requires Account(p0, p, back, ret) && OnCourse(goal, p.doing) && RollBackStep(e, p).Some?
    requires RollBackStep(e, p).value.process.doing.Idle?
    ensures Ended(goal, p0, p, RollBackStep(e, p).value.process, back, ret, {})
  {
    assert e.RollBackDone?;
    assert GpusOf({}) == {};
    assert p.slots + {} == p.slots;
  }

  lemma OtherGoesOn(e: Event, p: Process, busy: bool)
    requires OtherStep(e, p, busy).Some?
    ensures OtherStep(e, p, busy).value.process.doing == p.doing
  {
  }

  lemma LastStep(e: Event, goal: Goal, p0: Process, p: Process, busy: bool, back: set<Gpu>, ret: set<Slot>) returns (got: set<Slot>)
    requires Account(p0, p, back, ret) && OnCourse(goal, p.doing) && LocalStep(e, p, busy).Some?
    requires LocalStep(e, p, busy).value.process.doing.Idle?
    ensures Ended(goal, p0, p, LocalStep(e, p, busy).value.process, back, ret, got)
  {
    if ScanStep(e, p, busy).Some? {
      got := ScanEnds(e, goal, p0, p, busy, back, ret);
    } else if GatherStep(e, p, busy).Some? {
      GatherEnds(e, goal, p0, p, busy, back, ret);
      got := InFlight(p.doing);
    } else if RollBackStep(e, p).Some? {
      RollBackEnds(e, goal, p0, p, back, ret);
      got := {};
    } else {
      OtherGoesOn(e, p, busy);
    }
  }

  // ---- every interleaving ----

  lemma OthersLeaveAlone(pool: set<Gpu>, st: State, e: Event, next: State, w: nat)
    requires Apply(pool, st, e) == Some(next) && w in st.processes && e.w != w
    ensures w in next.processes && next.processes[w] == st.processes[w]
  {
  }

  lemma OwnStep(pool: set<Gpu>, st: State, e: Event, next: State)
    requires Apply(pool, st, e) == Some(next) && e.w in st.processes && !e.Crash?
    ensures e.w in next.processes
    ensures var p := st.processes[e.w]; var r := LocalStep(e, p, Busy(st.locks, e, p));
            r.Some? && next.processes[e.w] == r.value.process
  {
  }

  /** The acquisition that began with p0 is under way in st, and everything is accounted for. */
  ghost predicate UnderWay(st: State, w: nat, goal: Goal, p0: Process, back: set<Gpu>, ret: set<Slot>) {
    LockInv(st) && w in st.processes && Account(p0, st.processes[w], back, ret) && OnCourse(goal, st.processes[w].doing)
  }

  lemma OwnEventLater(pool: set<Gpu>, st: State, e: Event, next: State,
                      goal: Goal, p0: Process, back: set<Gpu>, ret: set<Slot>)
    requires UnderWay(st, e.w, goal, p0, back, ret) && Apply(pool, st, e) == Some(next) && !e.Crash?
    requires e.w in next.processes && !next.processes[e.w].doing.Idle?
    ensures UnderWay(next, e.w, goal, p0, back + Gives(e, e.w), ret + Returns(e, e.w))
  {
    LockInvStep(pool, st, e, next);
    OwnStep(pool, st, e, next);
    var p := st.processes[e.w];
    assert Holds(st.locks, e.w, p);
    OwnAccount(e, goal, p0, p, Busy(st.locks, e, p), back, ret);
  }

  lemma OneEventLater(pool: set<Gpu>, st: State, e: Event, next: State, w: nat,
                      goal: Goal, p0: Process, back: set<Gpu>, ret: set<Slot>)
    requires UnderWay(st, w, goal, p0, back, ret) && Apply(pool, st, e) == Some(next) && !LeavesOrEnters(e, w)
    requires w in next.processes && !next.processes[w].doing.Idle?
    ensures UnderWay(next, w, goal, p0, back + Gives(e, w), ret + Returns(e, w))
  {
    if e.w == w {
      OwnEventLater(pool, st, e, next, goal, p0, back, ret);
    } else {
      LockInvStep(pool, st, e, next);
      OthersLeaveAlone(pool, st, e, next, w);
      assert back + {} == back && ret + {} == ret;
    }
  }

  lemma {:induction false} AccountAlong(pool: set<Gpu>, st: State, w: nat, events: seq<Event>,
                                        goal: Goal, p0: Process, back: set<Gpu>, ret: set<Slot>)
    requires UnderWay(st, w, goal, p0, back, ret) && StaysBusy(pool, st, w, events) && RunFrom(pool, st, events).Some?
    ensures UnderWay(RunFrom(pool, st, events).value, w, goal, p0, back + Back(events, w), ret + Returned(events, w))
    decreases |events|
  {
    if events == [] {
      assert back + {} == back && ret + {} == ret;
    } else {
      var next := Apply(pool, st, events[0]).value;
      OneEventLater(pool, st, events[0], next, w, goal, p0, back, ret);
      var b, r := Gives(events[0], w), Returns(events[0], w);
      AccountAlong(pool, next, w, events[1..], goal, p0, back + b, ret + r);
      assert back + b + Back(events[1..], w) == back + Back(events, w);
      assert ret + r + Returned(events[1..], w) == ret + Returned(events, w);
    }
  }

  /** An acquisition: it begins in st, goes through mid and ends with last. */
  ghost predicate IsAcquisition(pool: set<Gpu>, st: State, w: nat, goal: Goal, mid: seq<Event>, last: Event, next: State) {
    && w in st.processes && st.processes[w].doing.Idle? && Apply(pool, st, Begin(goal, w)).Some?
    && var begun := Apply(pool, st, Begin(goal, w)).value;
       && StaysBusy(pool, begun, w, mid) && RunFrom(pool, begun, mid).Some?
       && last.w == w && !last.Crash? && Apply(pool, RunFrom(pool, begun, mid).value, last) == Some(next)
       && w in next.processes && next.processes[w].doing.Idle?
  }

  lemma Begun(pool: set<Gpu>, st: State, w: nat, goal: Goal, next: State)
    requires LockInv(st) && w in st.processes && st.processes[w].doing.Idle? && Apply(pool, st, Begin(goal, w)) == Some(next)
    ensures UnderWay(next, w, goal, st.processes[w], {}, {})
  {
    LockInvStep(pool, st, Begin(goal, w), next);
    OwnStep(pool, st, Begin(goal, w), next);
    var p, q := st.processes[w], next.processes[w];
    assert GpusOf({}) == {};
    assert q.available + Missing(q.doing) == p.available == p.available + {};
    assert p.slots - {} == p.slots;
    if goal.GatherFor? && goal.plan.Pinned? {
      assert goal.plan.list[..0] == [];
    }
  }

  /**
    In every interleaving an acquisition ends with exactly the slots it was asked for, or with none
    and everything it took given back; or a pinned index outside the pool raised. The slots are of
    different GPUs, and memory and slots have otherwise changed only by what other threads of the
    worker returned.
   */
  lemma AllOrNothing(pool: set<Gpu>, st: State, w: nat, goal: Goal, mid: seq<Event>, last: Event, next: State) returns (got: set<Slot>)
    requires LockInv(st) && IsAcquisition(pool, st, w, goal, mid, last, next)
    ensures Outcome(st.processes[w], next.processes[w], Back(mid, w), Returned(mid, w), got)
    ensures got == {} || Fulfils(goal, got) || Leaked(goal, got)
    ensures OnePerGpu(got) && LockInv(next)
  {
    var m := Middle(pool, st, w, goal, mid, last, next);
    got := Finish(pool, m, last, next, goal, st.processes[w], Back(mid, w), Returned(mid, w));
  }

  lemma AccountFromStart(pool: set<Gpu>, st: State, w: nat, events: seq<Event>, goal: Goal, p0: Process)
    requires UnderWay(st, w, goal, p0, {}, {}) && StaysBusy(pool, st, w, events) && RunFrom(pool, st, events).Some?
    ensures UnderWay(RunFrom(pool, st, events).value, w, goal, p0, Back(events, w), Returned(events, w))
  {
    AccountAlong(pool, st, w, events, goal, p0, {}, {});
    assert {} + Back(events, w) == Back(events, w) && {} + Returned(events, w) == Returned(events, w);
  }

  lemma Middle(pool: set<Gpu>, st: State, w: nat, goal: Goal, mid: seq<Event>, last: Event, next: State) returns (m: State)
    requires LockInv(st) && IsAcquisition(pool, st, w, goal, mid, last, next)
    ensures UnderWay(m, w, goal, st.processes[w], Back(mid, w), Returned(mid, w))
    ensures last.w == w && !last.Crash? && Apply(pool, m, last) == Some(next)
    ensures w in next.processes && next.processes[w].doing.Idle?
  {
    var begun := Apply(pool, st, Begin(goal, w)).value;
    Begun(pool, st, w, goal, begun);
    AccountFromStart(pool, begun, w, mid, goal, st.processes[w]);
    m := RunFrom(pool, begun, mid).value;
  }

  lemma Finish(pool: set<Gpu>, m: State, last: Event, next: State, goal: Goal, p0: Process, back: set<Gpu>, ret: set<Slot>)
    returns (got: set<Slot>)
    requires UnderWay(m, last.w, goal, p0, back, ret) && !last.Crash? && Apply(pool, m, last) == Some(next)
    requires last.w in next.processes && next.processes[last.w].doing.Idle?
    ensures Ended(goal, p0, m.processes[last.w], next.processes[last.w], back, ret, got) && OnePerGpu(got) && LockInv(next)
  {
    LockInvStep(pool, m, last, next);
    OwnStep(pool, m, last, next);
    var p := m.processes[last.w];
    got := LastStep(last, goal, p0, p, Busy(m.locks, last, p), back, ret);
    assert Holds(m.locks, last.w, p) && got <= Locked(p);
  }

  /** A pinned list whose indices all belong to the node never leaks, and then has no repeats. */
  lemma OwnedListIsAtomic(plan: Plan, got: set<Slot>)
    requires plan.Pinned? && Elements(plan.list) <= plan.want && OnePerGpu(got)
    ensures !Leaked(GatherFor(plan), got)
    ensures Fulfils(GatherFor(plan), got) ==> GpusOf(got) == Elements(plan.list) && |Elements(plan.list)| == |plan.list|
  {
    if |got| < |plan.list| {
      assert plan.list[|got|] in Elements(plan.list);
    }
    if |got| == |plan.list| {
      assert plan.list[..|got|] == plan.list;
      OneEach(got);
    }
  }

  lemma {:induction false} OneEach(got: set<Slot>)
    requires OnePerGpu(got)
    ensures |GpusOf(got)| == |got|
  {
    if got != {} {
      var s :| s in got;
      OneEach(got - {s});
      WithoutSlot(got, s);
    }
  }
}
