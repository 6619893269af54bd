/**
  The slot protocol of many worker processes. Each process has its own in-memory set of available
  GPUs; processes share only the OS lock of each GPU. Steps of any number of processes interleave
  freely: taking a GPU in memory, trying its lock, parking, rolling back, returning slots, probing
  locks, starting and crashing. In one process at most one thread is inside an acquisition (it
  holds the pool mutex), while any number of threads may be returning slots or probing.
 */
module SlotProtocol {
  import opened Base

  type Gpu = LockKey

  /** A lock object: the process that created it and a per-process serial number. */
  datatype Lock = Lock(process: nat, serial: nat)

  /** A GPU together with the lock object that was taken for it. */
  datatype Slot = Slot(gpu: Gpu, lock: Lock)

  /** What an all-or-nothing acquisition is after, on one node. */
  datatype Plan =
      /** acquire_slots: count of the node's eligible GPUs. */
    | Any(want: set<Gpu>, count: nat)
      /** The pinned variants: the listed GPUs in order; want is the node's whole pool. */
    | Pinned(want: set<Gpu>, list: seq<Gpu>)
  {
    function Size(): nat {
      if Any? then count else |list|
    }

    /** g may be taken when k slots have been collected. */
    predicate Takes(k: nat, g: Gpu) {
      k < Size() && g in want && (Pinned? ==> g == list[k])
    }

    /** The next pinned index is outside the node's pool, which raises without any rollback. */
    predicate Raises(k: nat) {
      Pinned? && k < |list| && list[k] !in want
    }

    /** Nothing in memory can be taken next. */
    predicate Blocked(k: nat, available: set<Gpu>) {
      k < Size() && if Any? then available * want == {} else list[k] in want && list[k] !in available
    }
  }

  /** Where the thread holding the pool mutex stands. */
  datatype Acquisition =
    | Idle
      /** acquire_slot: the scan loop over a node's eligible GPUs, with those parked so far. */
    | Scanning(want: set<Gpu>, parked: set<Gpu>)
    | ScanTook(want: set<Gpu>, parked: set<Gpu>, gpu: Gpu)
      /** Putting parked GPUs back: todo is what this loop still has to release. */
    | Unparking(parked: set<Gpu>, todo: set<Gpu>, found: Option<Slot>, again: bool)
      /** acquire_slots and the pinned variants: the slots collected so far. */
    | Gathering(plan: Plan, got: set<Slot>)
    | GatherTook(plan: Plan, got: set<Slot>, gpu: Gpu)
      /** Undoing a partial acquisition: the lock of each slot, then its memory. */
    | RollingBack(got: set<Slot>)
    | RolledLock(got: set<Slot>, gpu: Gpu)

  datatype Process = Process(
    available: set<Gpu>,
    slots: set<Slot>,        // handed to callers
    returning: set<Slot>,    // memory given back, lock not yet
    released: set<Slot>,     // given back at some time
    probes: set<Slot>,       // locks held for an availability probe
    doing: Acquisition,
    serial: nat)

  datatype State = State(processes: map<nat, Process>, locks: map<Gpu, Lock>)

  datatype Event =
    | Start(w: nat)
    | Crash(w: nat)
    | BeginScan(w: nat, want: set<Gpu>)
    | ScanTake(w: nat, gpu: Gpu)
    | ScanTryLock(w: nat)
    | ScanExhausted(w: nat)
    | UnparkOne(w: nat, gpu: Gpu)
    | UnparkDone(w: nat)
    | BeginGather(w: nat, plan: Plan)
    | GatherTake(w: nat, gpu: Gpu)
    | GatherTryLock(w: nat)
    | GatherDone(w: nat)
    | GatherGiveUp(w: nat)
    | GatherRaise(w: nat)
    | RollBackLock(w: nat, slot: Slot)
    | RollBackMemory(w: nat)
    | RollBackDone(w: nat)
    | ReturnMemory(w: nat, slot: Slot)
    | ReturnLock(w: nat, slot: Slot)
    | ProbeLock(w: nat, gpu: Gpu)
    | ProbeUnlock(w: nat, slot: Slot)
      /** A caller releases a slot a second time: its lock object is inert, its GPU index is not. */
    | StrayReturn(w: nat, slot: Slot)

  /** Releasing a lock object frees the lock only if that object holds it. */
  function Unlock(locks: map<Gpu, Lock>, s: Slot): map<Gpu, Lock> {
    if s.gpu in locks && locks[s.gpu] == s.lock then locks - {s.gpu} else locks
  }

  /** The kernel drops every lock of a dead process. */
  function UnlockAll(locks: map<Gpu, Lock>, w: nat): map<Gpu, Lock> {
    map g | g in locks && locks[g].process != w :: locks[g]
  }

  /** What an event of a live process does to the lock table. */
  datatype Effect = Nothing | Takes(slot: Slot) | Frees(slot: Slot)

  /** The new process and the effect on the locks, for an event of a live process. */
  datatype Local = Local(process: Process, effect: Effect)

  function LocksAfter(locks: map<Gpu, Lock>, f: Effect): map<Gpu, Lock> {
    match f
    case Nothing => locks
    case Takes(s) => locks[s.gpu := s.lock]
    case Frees(s) => Unlock(locks, s)
  }

  function Fresh(p: Process, w: nat, gpu: Gpu): Slot {
    Slot(gpu, Lock(w, p.serial))
  }

  function Quietly(p: Process): Option<Local> {
    Some(Local(p, Nothing))
  }

  /** acquire_slot: take, try the lock, park on failure, and put the parked GPUs back. */
  function ScanStep(e: Event, p: Process, busy: bool): Option<Local> {
    match e
    case BeginScan(_, want) =>
      if p.doing.Idle? then Quietly(p.(doing := Scanning(want, {}))) else None
    case ScanTake(_, g) =>
      if p.doing.Scanning? && g in p.available && g in p.doing.want
      then Quietly(p.(available := p.available - {g}, doing := ScanTook(p.doing.want, p.doing.parked, g)))
      else None
    case ScanTryLock(w) =>
      if !p.doing.ScanTook? then None
      else if busy then Quietly(p.(doing := Scanning(p.doing.want, p.doing.parked + {p.doing.gpu})))
      else
        var s := Fresh(p, w, p.doing.gpu);
        Some(Local(p.(serial := p.serial + 1, doing := Unparking(p.doing.parked, p.doing.parked, Some(s), true)), Takes(s)))
    case ScanExhausted(_) =>
      if p.doing.Scanning? && p.available * p.doing.want == {}
      then Quietly(p.(doing := Unparking(p.doing.parked, p.doing.parked, None, false)))
      else None
    case UnparkOne(_, g) =>
      if p.doing.Unparking? && g in p.doing.todo
      then Quietly(p.(available := p.available + {g}, doing := p.doing.(todo := p.doing.todo - {g})))
      else None
    case UnparkDone(_) =>
      if !p.doing.Unparking? || p.doing.todo != {} then None
      else if p.doing.again then Quietly(p.(doing := p.doing.(todo := p.doing.parked, again := false)))
      else if p.doing.found.Some? then Quietly(p.(slots := p.slots + {p.doing.found.value}, doing := Idle))
      else Quietly(p.(doing := Idle))
    case _ => None
  }

  /** acquire_slots and the pinned variants: collect slots one by one, until done or unable to go on. */
  function GatherStep(e: Event, p: Process, busy: bool): Option<Local> {
    match e
    case BeginGather(_, plan) =>
      if p.doing.Idle? then Quietly(p.(doing := Gathering(plan, {}))) else None
    case GatherTake(_, g) =>
      if p.doing.Gathering? && p.doing.plan.Takes(|p.doing.got|, g) && g in p.available
      then Quietly(p.(available := p.available - {g}, doing := GatherTook(p.doing.plan, p.doing.got, g)))
      else None
    case GatherTryLock(w) =>
      if !p.doing.GatherTook? then None
      else if busy then Quietly(p.(available := p.available + {p.doing.gpu}, doing := RollingBack(p.doing.got)))
      else
        var s := Fresh(p, w, p.doing.gpu);
        Some(Local(p.(serial := p.serial + 1, doing := Gathering(p.doing.plan, p.doing.got + {s})), Takes(s)))
    case GatherDone(_) =>
      if p.doing.Gathering? && |p.doing.got| >= p.doing.plan.Size()
      then Quietly(p.(slots := p.slots + p.doing.got, doing := Idle))
      else None
    case GatherRaise(_) =>
      // the slots collected so far stay held, although no caller ever gets them
      if p.doing.Gathering? && p.doing.plan.Raises(|p.doing.got|)
      then Quietly(p.(slots := p.slots + p.doing.got, doing := Idle))
      else None
    case GatherGiveUp(_) =>
      if p.doing.Gathering? && p.doing.plan.Blocked(|p.doing.got|, p.available)
      then Quietly(p.(doing := RollingBack(p.doing.got)))
      else None
    case _ => None
  }

  /** Giving a partial collection back: for each slot the lock, then the memory. */
  function RollBackStep(e: Event, p: Process): Option<Local> {
    match e
    case RollBackLock(_, s) =>
      if p.doing.RollingBack? && s in p.doing.got
      then Some(Local(p.(doing := RolledLock(p.doing.got - {s}, s.gpu)), Frees(s)))
      else None
    case RollBackMemory(_) =>
      if p.doing.RolledLock?
      then Quietly(p.(available := p.available + {p.doing.gpu}, doing := RollingBack(p.doing.got)))
      else None
    case RollBackDone(_) =>
      if p.doing.RollingBack? && p.doing.got == {} then Quietly(p.(doing := Idle)) else None
    case _ => None
  }

  /** release gives back memory before the lock; a probe takes a free lock and drops it again. */
  function OtherStep(e: Event, p: Process, busy: bool): Option<Local> {
    match e
    case ReturnMemory(_, s) =>
      if s in p.slots
      then Quietly(p.(slots := p.slots - {s}, returning := p.returning + {s}, released := p.released + {s},
                      available := p.available + {s.gpu}))
      else None
    case ReturnLock(_, s) =>
      if s in p.returning then Some(Local(p.(returning := p.returning - {s}), Frees(s))) else None
    case ProbeLock(w, g) =>
      if busy then None
      else Some(Local(p.(serial := p.serial + 1, probes := p.probes + {Fresh(p, w, g)}), Takes(Fresh(p, w, g))))
    case ProbeUnlock(_, s) =>
      if s in p.probes then Some(Local(p.(probes := p.probes - {s}), Frees(s))) else None
    case StrayReturn(_, s) =>
      if s in p.released then Quietly(p.(available := p.available + {s.gpu})) else None
    case _ => None
  }

  function LocalStep(e: Event, p: Process, busy: bool): Option<Local> {
    if ScanStep(e, p, busy).Some? then ScanStep(e, p, busy)
    else if GatherStep(e, p, busy).Some? then GatherStep(e, p, busy)
    else if RollBackStep(e, p).Some? then RollBackStep(e, p)
    else OtherStep(e, p, busy)
  }

  /** The GPU whose lock an event is about to try, if any. */
  function Tries(e: Event, p: Process): Option<Gpu> {
    match e
    case ScanTryLock(_) => if p.doing.ScanTook? then Some(p.doing.gpu) else None
    case GatherTryLock(_) => if p.doing.GatherTook? then Some(p.doing.gpu) else None
    case ProbeLock(_, g) => Some(g)
    case _ => None
  }

  predicate Busy(locks: map<Gpu, Lock>, e: Event, p: Process) {
    Tries(e, p).Some? && Tries(e, p).value in locks
  }

  /** The effect of one event; None when it is not possible in the state. */
  function Apply(pool: set<Gpu>, st: State, e: Event): Option<State> {
    if e.Start? then
      if e.w in st.processes then None
      else Some(st.(processes := st.processes[e.w := Process(pool, {}, {}, {}, {}, Idle, 0)]))
    else if e.w !in st.processes then None
    else if e.Crash? then
      Some(State(st.processes - {e.w}, UnlockAll(st.locks, e.w)))
    else
      var r := LocalStep(e, st.processes[e.w], Busy(st.locks, e, st.processes[e.w]));
      if r.None? then None
      else Some(State(st.processes[e.w := r.value.process], LocksAfter(st.locks, r.value.effect)))
  }

  const Initial := State(map[], map[])

  function Run(pool: set<Gpu>, events: seq<Event>): Option<State> {
    if events == [] then Some(Initial) else
    var before := Run(pool, events[..|events| - 1]);
    if before.None? then None else Apply(pool, before.value, events[|events| - 1])
  }

  /** Running further events from a state. */
  function RunFrom(pool: set<Gpu>, st: State, events: seq<Event>): Option<State>
    decreases |events|
  {
    if events == [] then Some(st) else
    var next := Apply(pool, st, events[0]);
    if next.None? then None else RunFrom(pool, next.value, events[1..])
  }

  lemma {:induction false} RunFromConcat(pool: set<Gpu>, st: State, a: seq<Event>, b: seq<Event>)
    requires RunFrom(pool, st, a).Some?
    ensures RunFrom(pool, st, a + b) == RunFrom(pool, RunFrom(pool, st, a).value, b)
    decreases |a|
  {
    if a == [] {
      assert a + b == b;
    } else {
      assert (a + b)[0] == a[0] && (a + b)[1..] == a[1..] + b;
      RunFromConcat(pool, Apply(pool, st, a[0]).value, a[1..], b);
    }
  }

  /** A run can be cut anywhere. */
  lemma {:induction false} RunInTwo(pool: set<Gpu>, a: seq<Event>, b: seq<Event>)
    requires Run(pool, a).Some?
    ensures Run(pool, a + b) == RunFrom(pool, Run(pool, a).value, b)
    decreases |b|
  {
    if b == [] {
      assert a + b == a;
    } else {
      var next := Apply(pool, Run(pool, a).value, b[0]);
      assert (a + [b[0]])[..|a|] == a;
      assert Run(pool, a + [b[0]]) == next;
      assert a + b == a + [b[0]] + b[1..];
      if next.Some? {
        RunInTwo(pool, a + [b[0]], b[1..]);
      } else {
        NoRunAfter(pool, a + [b[0]], b[1..]);
      }
    }
  }

  lemma {:induction false} NoRunAfter(pool: set<Gpu>, a: seq<Event>, b: seq<Event>)
    requires Run(pool, a).None?
    ensures Run(pool, a + b).None?
    decreases |b|
  {
    if b == [] {
      assert a + b == a;
    } else {
      NoRunAfter(pool, a, b[..|b| - 1]);
      assert (a + b)[..|a + b| - 1] == a + b[..|b| - 1];
    }
  }

  // ---- locks ----

  /** The locks an acquisition holds on its own account. */
  function InFlight(a: Acquisition): set<Slot> {
    match a
    case Unparking(_, _, found, _) => if found.Some? then {found.value} else {}
    case Gathering(_, got) => got
    case GatherTook(_, got, _) => got
    case RollingBack(got) => got
    case RolledLock(got, _) => got
    case _ => {}
  }

  /** Everything in a process that stands for a held lock. */
  function Locked(p: Process): set<Slot> {
    p.slots + p.returning + p.probes + InFlight(p.doing)
  }

  ghost predicate DisjointRoles(p: Process) {
    && p.slots !! p.returning && p.slots !! p.probes && p.returning !! p.probes
    && InFlight(p.doing) !! p.slots && InFlight(p.doing) !! p.returning && InFlight(p.doing) !! p.probes
  }

  /** A process really holds what it believes to hold, under lock objects of its own. */
  ghost predicate Holds(locks: map<Gpu, Lock>, w: nat, p: Process) {
    && DisjointRoles(p)
    && forall s :: s in Locked(p) ==>
         s.gpu in locks && locks[s.gpu] == s.lock && s.lock.process == w && s.lock.serial < p.serial
  }

  /** The lock of a GPU, if held, is held on the account of a live process. */
  ghost predicate Backed(st: State, g: Gpu)
    requires g in st.locks
  {
    var l := st.locks[g];
    l.process in st.processes && Slot(g, l) in Locked(st.processes[l.process])
  }

  ghost predicate LockInv(st: State) {
    && (forall w :: w in st.processes ==> Holds(st.locks, w, st.processes[w]))
    && (forall g :: g in st.locks ==> Backed(st, g))
  }

  /** The process's own bookkeeping follows the effect on the locks. */
  ghost predicate Follows(e: Event, p: Process, busy: bool, r: Local) {
    && DisjointRoles(r.process)
    && match r.effect
       case Nothing => Locked(r.process) == Locked(p) && r.process.serial == p.serial
       case Takes(s) =>
         && !busy && Tries(e, p) == Some(s.gpu) && s.lock == Lock(e.w, p.serial)
         && Locked(r.process) == Locked(p) + {s} && r.process.serial == p.serial + 1
       case Frees(s) => s in Locked(p) && Locked(r.process) == Locked(p) - {s} && r.process.serial == p.serial
  }

  ghost predicate OldSerials(p: Process) {
    forall s :: s in Locked(p) ==> s.lock.serial < p.serial
  }

  lemma ScanFollows(e: Event, p: Process, busy: bool)
    requires DisjointRoles(p) && OldSerials(p) && ScanStep(e, p, busy).Some?
    ensures Follows(e, p, busy, ScanStep(e, p, busy).value)
  {
    var q := ScanStep(e, p, busy).value.process;
    assert InFlight(p.doing) <= Locked(p);
    if e.ScanTryLock? && !busy {
      assert InFlight(q.doing) == {Fresh(p, e.w, p.doing.gpu)};
      assert Fresh(p, e.w, p.doing.gpu) !in Locked(p);
    }
  }

  /** The in-flight slots stay as they are. */
  lemma SameLocked(e: Event, p: Process, busy: bool, q: Process)
    requires DisjointRoles(p) && InFlight(q.doing) == InFlight(p.doing) && q.serial == p.serial
    requires q.slots == p.slots && q.returning == p.returning && q.probes == p.probes
    ensures Follows(e, p, busy, Local(q, Nothing))
  {
  }

  /** The in-flight slots are handed out. */
  lemma HandedOut(e: Event, p: Process, busy: bool, q: Process)
    requires DisjointRoles(p) && InFlight(q.doing) == {} && q.serial == p.serial
    requires q.slots == p.slots + InFlight(p.doing) && q.returning == p.returning && q.probes == p.probes
    ensures Follows(e, p, busy, Local(q, Nothing))
  {
  }

  lemma GatherLockFollows(e: Event, p: Process, busy: bool)
    requires DisjointRoles(p) && OldSerials(p) && e.GatherTryLock? && p.doing.GatherTook?
    ensures Follows(e, p, busy, GatherStep(e, p, busy).value)
  {
    var q := GatherStep(e, p, busy).value.process;
    if busy {
      SameLocked(e, p, busy, q);
    } else {
      assert Fresh(p, e.w, p.doing.gpu) !in Locked(p);
      assert InFlight(q.doing) == InFlight(p.doing) + {Fresh(p, e.w, p.doing.gpu)};
    }
  }

  lemma GatherFollows(e: Event, p: Process, busy: bool)
    requires DisjointRoles(p) && OldSerials(p) && GatherStep(e, p, busy).Some?
    ensures Follows(e, p, busy, GatherStep(e, p, busy).value)
  {
    var q := GatherStep(e, p, busy).value.process;
    if e.GatherTryLock? {
      GatherLockFollows(e, p, busy);
    } else if e.GatherDone? || e.GatherRaise? {
      HandedOut(e, p, busy, q);
    } else {
      SameLocked(e, p, busy, q);
    }
  }

  lemma RollBackFollows(e: Event, p: Process, busy: bool)
    requires DisjointRoles(p) && OldSerials(p) && RollBackStep(e, p).Some?
    ensures Follows(e, p, busy, RollBackStep(e, p).value)
  {
  }

  lemma OtherFollows(e: Event, p: Process, busy: bool)
    requires DisjointRoles(p) && OldSerials(p) && OtherStep(e, p, busy).Some?
    ensures Follows(e, p, busy, OtherStep(e, p, busy).value)
  {
    if e.ProbeLock? && !busy {
      assert Fresh(p, e.w, e.gpu) !in Locked(p);
    }
  }

  lemma TakesKeepsLockInv(st: State, w: nat, q: Process, s: Slot)
    requires LockInv(st) && w in st.processes && s.gpu !in st.locks
    requires s.lock == Lock(w, st.processes[w].serial) && q.serial == st.processes[w].serial + 1
    requires Locked(q) == Locked(st.processes[w]) + {s} && DisjointRoles(q)
    ensures LockInv(State(st.processes[w := q], st.locks[s.gpu := s.lock]))
  {
    var next := State(st.processes[w := q], st.locks[s.gpu := s.lock]);
    forall v | v in next.processes
      ensures Holds(next.locks, v, next.processes[v])
    {
      assert v in st.processes && Holds(st.locks, v, st.processes[v]);
    }
    forall g | g in next.locks
      ensures Backed(next, g)
    {
      assert g != s.gpu ==> Backed(st, g);
    }
  }

  lemma FreesKeepsLockInv(st: State, w: nat, q: Process, s: Slot)
    requires LockInv(st) && w in st.processes
    requires s in Locked(st.processes[w]) && q.serial == st.processes[w].serial
    requires Locked(q) == Locked(st.processes[w]) - {s} && DisjointRoles(q)
    ensures LockInv(State(st.processes[w := q], Unlock(st.locks, s)))
  {
    var next := State(st.processes[w := q], Unlock(st.locks, s));
    assert Holds(st.locks, w, st.processes[w]);
    forall v | v in next.processes
      ensures Holds(next.locks, v, next.processes[v])
    {
      assert v in st.processes && Holds(st.locks, v, st.processes[v]);
      forall x | x in Locked(next.processes[v])
        ensures x.gpu != s.gpu
      {
        assert x in Locked(st.processes[v]);
        assert x.gpu == s.gpu ==> x == s;
      }
    }
    forall g | g in next.locks
      ensures Backed(next, g)
    {
      assert Backed(st, g);
    }
  }

  lemma NothingKeepsLockInv(st: State, w: nat, q: Process)
    requires LockInv(st) && w in st.processes && q.serial == st.processes[w].serial
    requires Locked(q) == Locked(st.processes[w]) && DisjointRoles(q)
    ensures LockInv(State(st.processes[w := q], st.locks))
  {
    var next := State(st.processes[w := q], st.locks);
    forall v | v in next.processes
      ensures Holds(next.locks, v, next.processes[v])
    {
      assert v in st.processes && Holds(st.locks, v, st.processes[v]);
    }
    forall g | g in next.locks
      ensures Backed(next, g)
    {
      assert Backed(st, g);
    }
  }

  lemma LockInvLocal(st: State, e: Event, r: Local)
    requires LockInv(st) && e.w in st.processes
    requires Follows(e, st.processes[e.w], Busy(st.locks, e, st.processes[e.w]), r)
    ensures LockInv(State(st.processes[e.w := r.process], LocksAfter(st.locks, r.effect)))
  {
    match r.effect
    case Nothing => NothingKeepsLockInv(st, e.w, r.process);
    case Takes(s) => TakesKeepsLockInv(st, e.w, r.process, s);
    case Frees(s) => FreesKeepsLockInv(st, e.w, r.process, s);
  }

  lemma LocalFollows(e: Event, p: Process, busy: bool)
    requires DisjointRoles(p) && OldSerials(p) && LocalStep(e, p, busy).Some?
    ensures Follows(e, p, busy, LocalStep(e, p, busy).value)
  {
    if ScanStep(e, p, busy).Some? {
      ScanFollows(e, p, busy);
    } else if GatherStep(e, p, busy).Some? {
      GatherFollows(e, p, busy);
    } else if RollBackStep(e, p).Some? {
      RollBackFollows(e, p, busy);
    } else {
      OtherFollows(e, p, busy);
    }
  }

  lemma StartKeepsLockInv(pool: set<Gpu>, st: State, w: nat)
    requires LockInv(st) && w !in st.processes
    ensures LockInv(st.(processes := st.processes[w := Process(pool, {}, {}, {}, {}, Idle, 0)]))
  {
    var next := st.(processes := st.processes[w := Process(pool, {}, {}, {}, {}, Idle, 0)]);
    forall g | g in next.locks
      ensures Backed(next, g)
    {
      assert Backed(st, g);
    }
  }

  lemma CrashKeepsLockInv(st: State, w: nat)
    requires LockInv(st)
    ensures LockInv(State(st.processes - {w}, UnlockAll(st.locks, w)))
  {
    var next := State(st.processes - {w}, UnlockAll(st.locks, w));
    forall v | v in next.processes
      ensures Holds(next.locks, v, next.processes[v])
    {
      assert Holds(st.locks, v, st.processes[v]);
    }
    forall g | g in next.locks
      ensures Backed(next, g)
    {
      assert Backed(st, g);
    }
  }

  lemma LockInvStep(pool: set<Gpu>, st: State, e: Event, next: State)
    requires LockInv(st) && Apply(pool, st, e) == Some(next)
    ensures LockInv(next)
  {
    if e.Start? {
      StartKeepsLockInv(pool, st, e.w);
    } else if e.Crash? {
      CrashKeepsLockInv(st, e.w);
    } else {
      var p := st.processes[e.w];
      assert Holds(st.locks, e.w, p);
      LocalFollows(e, p, Busy(st.locks, e, p));
      LockInvLocal(st, e, LocalStep(e, p, Busy(st.locks, e, p)).value);
    }
  }

  // ---- memory ----

  function GpusOf(slots: set<Slot>): set<Gpu> {
    set s | s in slots :: s.gpu
  }

  /** The second time the parked GPUs are put back; they are all back already. */
  predicate SecondUnparking(a: Acquisition) {
    a.Unparking? && a.found.Some? && !a.again
  }

  /** The GPUs an acquisition keeps out of memory. */
  function Missing(a: Acquisition): set<Gpu> {
    match a
    case Idle => {}
    case Scanning(_, parked) => parked
    case ScanTook(_, parked, g) => parked + {g}
    case Unparking(_, todo, found, _) =>
      (if SecondUnparking(a) then {} else todo) + if found.Some? then {found.value.gpu} else {}
    case Gathering(_, got) => GpusOf(got)
    case GatherTook(_, got, g) => GpusOf(got) + {g}
    case RollingBack(got) => GpusOf(got)
    case RolledLock(got, g) => GpusOf(got) + {g}
  }

  /** Every GPU is either available, in a slot handed out, or kept out by the acquisition under way. */
  ghost predicate MemInv(pool: set<Gpu>, p: Process) {
    var out, missing := GpusOf(p.slots), Missing(p.doing);
    && p.available !! out && p.available !! missing && out !! missing
    && p.available + out + missing == pool
    && (p.doing.Unparking? ==> p.doing.todo <= p.doing.parked <= p.available + p.doing.todo)
    && (SecondUnparking(p.doing) ==> p.doing.todo <= p.available)
    && InHandIsApart(p.doing)
  }

  /** The GPU an acquisition has in hand is none of those it has parked or collected. */
  ghost predicate InHandIsApart(a: Acquisition) {
    match a
    case ScanTook(_, parked, g) => g !in parked
    case Unparking(parked, _, found, again) => if found.Some? then found.value.gpu !in parked else !again
    case GatherTook(_, got, g) => g !in GpusOf(got)
    case RolledLock(got, g) => g !in GpusOf(got)
    case _ => true
  }

  /** Slots of one process stand for different GPUs, because their locks do. */
  ghost predicate OnePerGpu(slots: set<Slot>) {
    forall a, b :: a in slots && b in slots && a.gpu == b.gpu ==> a == b
  }

  lemma WithoutSlot(slots: set<Slot>, s: Slot)
    requires OnePerGpu(slots) && s in slots
    ensures GpusOf(slots - {s}) == GpusOf(slots) - {s.gpu}
    ensures s.gpu in GpusOf(slots)
  {
    var rest := slots - {s};
    forall g | g in GpusOf(slots) && g != s.gpu
      ensures g in GpusOf(rest)
    {
      var x :| x in slots && x.gpu == g;
      assert x in rest;
    }
  }

  lemma ScanKeepsMemory(pool: set<Gpu>, e: Event, p: Process, busy: bool)
    requires MemInv(pool, p) && ScanStep(e, p, busy).Some?
    ensures MemInv(pool, ScanStep(e, p, busy).value.process)
  {
    var q := ScanStep(e, p, busy).value.process;
    if e.UnparkDone? && !p.doing.again && p.doing.found.Some? {
      assert GpusOf(q.slots) == GpusOf(p.slots) + {p.doing.found.value.gpu};
    }
  }

  /** Memory is in order again when an acquisition moves GPUs between memory and its own account. */
  lemma MovedKeepsMemory(pool: set<Gpu>, p: Process, q: Process)
    requires MemInv(pool, p) && q.slots == p.slots && !q.doing.Unparking? && InHandIsApart(q.doing)
    requires q.available !! Missing(q.doing) && q.available + Missing(q.doing) == p.available + Missing(p.doing)
    ensures MemInv(pool, q)
  {
  }

  lemma GatherLockKeepsMemory(pool: set<Gpu>, e: Event, p: Process, busy: bool)
    requires MemInv(pool, p) && e.GatherTryLock? && p.doing.GatherTook?
    ensures MemInv(pool, GatherStep(e, p, busy).value.process)
  {
    var q := GatherStep(e, p, busy).value.process;
    assert !busy ==> GpusOf(q.doing.got) == GpusOf(p.doing.got) + {p.doing.gpu};
    MovedKeepsMemory(pool, p, q);
  }

  lemma HandedOutKeepsMemory(pool: set<Gpu>, p: Process, q: Process)
    requires MemInv(pool, p) && p.doing.Gathering? && q == p.(slots := p.slots + p.doing.got, doing := Idle)
    ensures MemInv(pool, q)
  {
    assert GpusOf(q.slots) == GpusOf(p.slots) + GpusOf(p.doing.got);
  }

  lemma GatherKeepsMemory(pool: set<Gpu>, e: Event, p: Process, busy: bool)
    requires MemInv(pool, p) && GatherStep(e, p, busy).Some?
    ensures MemInv(pool, GatherStep(e, p, busy).value.process)
  {
    var q := GatherStep(e, p, busy).value.process;
    if e.GatherTryLock? {
      GatherLockKeepsMemory(pool, e, p, busy);
    } else if e.GatherDone? || e.GatherRaise? {
      HandedOutKeepsMemory(pool, p, q);
    } else {
      MovedKeepsMemory(pool, p, q);
    }
  }

  lemma RollBackKeepsMemory(pool: set<Gpu>, e: Event, p: Process)
    requires MemInv(pool, p) && OnePerGpu(Locked(p)) && RollBackStep(e, p).Some?
    ensures MemInv(pool, RollBackStep(e, p).value.process)
  {
    if e.RollBackLock? {
      WithoutSlot(p.doing.got, e.slot);
    }
  }

  lemma OtherKeepsMemory(pool: set<Gpu>, e: Event, p: Process, busy: bool)
    requires MemInv(pool, p) && OnePerGpu(Locked(p)) && OtherStep(e, p, busy).Some? && !e.StrayReturn?
    ensures MemInv(pool, OtherStep(e, p, busy).value.process)
  {
    if e.ReturnMemory? {
      WithoutSlot(p.slots, e.slot);
    }
  }

  /**
    A second release of a slot puts its GPU into memory again. That is harmless exactly when the
    GPU is in memory anyway; otherwise somebody's GPU is now also on offer.
   */
  lemma StrayReturnExactlyHarmless(pool: set<Gpu>, p: Process, g: Gpu)
    requires MemInv(pool, p)
    ensures MemInv(pool, p.(available := p.available + {g})) <==> g in p.available
  {
    if g in p.available {
      assert p.available + {g} == p.available;
    }
  }

  lemma MemInvStep(pool: set<Gpu>, e: Event, p: Process, busy: bool)
    requires MemInv(pool, p) && OnePerGpu(Locked(p)) && LocalStep(e, p, busy).Some?
    requires e.StrayReturn? ==> e.slot.gpu in p.available
    ensures MemInv(pool, LocalStep(e, p, busy).value.process)
  {
    if ScanStep(e, p, busy).Some? {
      ScanKeepsMemory(pool, e, p, busy);
    } else if GatherStep(e, p, busy).Some? {
      GatherKeepsMemory(pool, e, p, busy);
    } else if RollBackStep(e, p).Some? {
      RollBackKeepsMemory(pool, e, p);
    } else if e.StrayReturn? {
      StrayReturnExactlyHarmless(pool, p, e.slot.gpu);
    } else {
      OtherKeepsMemory(pool, e, p, busy);
    }
  }

  // ---- every run ----

  ghost predicate AllMemory(pool: set<Gpu>, st: State) {
    forall w :: w in st.processes ==> MemInv(pool, st.processes[w])
  }

  lemma {:induction false} RunKeepsLockInv(pool: set<Gpu>, events: seq<Event>)
    requires Run(pool, events).Some?
    ensures LockInv(Run(pool, events).value)
    decreases |events|
  {
    if events != [] {
      var n := |events| - 1;
      RunKeepsLockInv(pool, events[..n]);
      LockInvStep(pool, Run(pool, events[..n]).value, events[n], Run(pool, events).value);
    }
  }

  lemma {:induction false} RunFromKeepsLockInv(pool: set<Gpu>, st: State, events: seq<Event>)
    requires LockInv(st) && RunFrom(pool, st, events).Some?
    ensures LockInv(RunFrom(pool, st, events).value)
    decreases |events|
  {
    if events != [] {
      LockInvStep(pool, st, events[0], Apply(pool, st, events[0]).value);
      RunFromKeepsLockInv(pool, Apply(pool, st, events[0]).value, events[1..]);
    }
  }

  /** Every second release in the run concerned a GPU that was in its process's memory at that moment. */
  ghost predicate HarmlessStrays(pool: set<Gpu>, events: seq<Event>) {
    forall i :: 0 <= i < |events| && events[i].StrayReturn? ==> HarmlessAt(Run(pool, events[..i]), events[i])
  }

  predicate HarmlessAt(st: Option<State>, e: Event)
    requires e.StrayReturn?
  {
    st.Some? && e.w in st.value.processes && e.slot.gpu in st.value.processes[e.w].available
  }

  lemma HarmlessPrefix(pool: set<Gpu>, events: seq<Event>, n: nat)
    requires n <= |events| && HarmlessStrays(pool, events)
    ensures HarmlessStrays(pool, events[..n])
  {
    forall i | 0 <= i < n && events[i].StrayReturn? ensures HarmlessAt(Run(pool, events[..n][..i]), events[i]) {
      assert events[..n][..i] == events[..i];
    }
  }

  lemma {:induction false} RunKeepsMemory(pool: set<Gpu>, events: seq<Event>)
    requires Run(pool, events).Some? && HarmlessStrays(pool, events)
    ensures AllMemory(pool, Run(pool, events).value)
    decreases |events|
  {
    if events != [] {
      var n := |events| - 1;
      var e, st := events[n], Run(pool, events[..n]).value;
      HarmlessPrefix(pool, events, n);
      RunKeepsMemory(pool, events[..n]);
      RunKeepsLockInv(pool, events[..n]);
      if !e.Start? && !e.Crash? {
        assert Holds(st.locks, e.w, st.processes[e.w]);
        MemInvStep(pool, e, st.processes[e.w], Busy(st.locks, e, st.processes[e.w]));
      }
    }
  }

  /** Memory is in order after the first n events. */
  ghost predicate MemoryAt(pool: set<Gpu>, events: seq<Event>, n: nat)
    requires n <= |events|
  {
    var st := Run(pool, events[..n]);
    st.Some? && AllMemory(pool, st.value)
  }

  lemma {:induction false} RunPrefix(pool: set<Gpu>, events: seq<Event>, n: nat)
    requires n <= |events| && Run(pool, events).Some?
    ensures Run(pool, events[..n]).Some?
    decreases |events|
  {
    if n < |events| {
      RunPrefix(pool, events[..|events| - 1], n);
      assert events[..|events| - 1][..n] == events[..n];
    } else {
      assert events[..n] == events;
    }
  }

  lemma StrayStep(pool: set<Gpu>, st: State, w: nat, s: Slot, next: State)
    requires Apply(pool, st, StrayReturn(w, s)) == Some(next)
    ensures w in st.processes && w in next.processes
    ensures var p := st.processes[w]; next.processes[w] == p.(available := p.available + {s.gpu})
  {
  }

  lemma StrayWasHarmless(pool: set<Gpu>, events: seq<Event>, i: nat)
    requires i < |events| && events[i].StrayReturn? && MemoryAt(pool, events, i) && MemoryAt(pool, events, i + 1)
    ensures HarmlessAt(Run(pool, events[..i]), events[i])
  {
    var e, st := events[i], Run(pool, events[..i]).value;
    var next := Run(pool, events[..i + 1]).value;
    assert events[..i + 1][..i] == events[..i];
    StrayStep(pool, st, e.w, e.slot, next);
    var p := st.processes[e.w];
    assert MemInv(pool, p) && MemInv(pool, next.processes[e.w]);
    StrayReturnExactlyHarmless(pool, p, e.slot.gpu);
  }

  /** In every run, memory stays in order throughout if and only if every second release was harmless. */
  lemma MemoryKeptExactlyWhen(pool: set<Gpu>, events: seq<Event>)
    requires Run(pool, events).Some?
    ensures (forall n: nat :: n <= |events| ==> MemoryAt(pool, events, n)) <==> HarmlessStrays(pool, events)
  {
    if HarmlessStrays(pool, events) {
      forall n: nat | n <= |events| ensures MemoryAt(pool, events, n) {
        RunPrefix(pool, events, n);
        HarmlessPrefix(pool, events, n);
        RunKeepsMemory(pool, events[..n]);
      }
    }
    if forall n: nat :: n <= |events| ==> MemoryAt(pool, events, n) {
      forall i | 0 <= i < |events| && events[i].StrayReturn? ensures HarmlessAt(Run(pool, events[..i]), events[i]) {
        assert MemoryAt(pool, events, i) && MemoryAt(pool, events, i + 1);
        StrayWasHarmless(pool, events, i);
      }
    }
  }

  /**
    Cross-process exclusion. In every run, whatever the interleaving, crashes and even double
    releases: a live slot owns its GPU's lock, and no two live slots share a GPU.
   */
  lemma Exclusion(pool: set<Gpu>, events: seq<Event>, v: nat, a: Slot, w: nat, b: Slot)
    requires Run(pool, events).Some?
    requires var st := Run(pool, events).value;
             v in st.processes && a in st.processes[v].slots && w in st.processes && b in st.processes[w].slots
    ensures var st := Run(pool, events).value; a.gpu in st.locks && st.locks[a.gpu] == a.lock
    ensures a.gpu == b.gpu ==> v == w && a == b
  {
    RunKeepsLockInv(pool, events);
    var st := Run(pool, events).value;
    assert Holds(st.locks, v, st.processes[v]) && Holds(st.locks, w, st.processes[w]);
    assert a in Locked(st.processes[v]) && b in Locked(st.processes[w]);
  }

  /**
    No phantom allocations. In every run whose double releases are harmless (in particular in one
    without any), what is missing from a process's memory is exactly its slots and the GPUs its
    acquisition under way holds; between acquisitions memory is exactly the pool minus the slots,
    even while slots are still being returned.
   */
  lemma NoPhantoms(pool: set<Gpu>, events: seq<Event>, w: nat)
    requires Run(pool, events).Some? && HarmlessStrays(pool, events) && w in Run(pool, events).value.processes
    ensures var p := Run(pool, events).value.processes[w];
            && pool - p.available == GpusOf(p.slots) + Missing(p.doing)
            && p.available <= pool
            && (p.doing.Idle? ==> p.available == pool - GpusOf(p.slots))
  {
    RunKeepsMemory(pool, events);
    var p := Run(pool, events).value.processes[w];
    assert MemInv(pool, p);
  }

  /**
    No leaked locks. Once no process is acquiring, returning or probing, the held locks are
    exactly those of the slots handed out; crashed processes hold none.
   */
  lemma NoLeakedLocks(pool: set<Gpu>, events: seq<Event>, g: Gpu)
    requires Run(pool, events).Some?
    requires forall w :: w in Run(pool, events).value.processes ==>
               var p := Run(pool, events).value.processes[w]; p.doing.Idle? && p.returning == {} && p.probes == {}
    ensures var st := Run(pool, events).value;
            g in st.locks <==> exists w :: w in st.processes && g in GpusOf(st.processes[w].slots)
  {
    RunKeepsLockInv(pool, events);
    var st := Run(pool, events).value;
    if g in st.locks {
      assert Backed(st, g);
      assert g in GpusOf(st.processes[st.locks[g].process].slots);
    }
    if exists w :: w in st.processes && g in GpusOf(st.processes[w].slots) {
      var w :| w in st.processes && g in GpusOf(st.processes[w].slots);
      var s :| s in st.processes[w].slots && s.gpu == g;
      assert Holds(st.locks, w, st.processes[w]) && s in Locked(st.processes[w]);
    }
  }
}
