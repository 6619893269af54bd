/**
  One worker's view of slot acquisition: the per-node allocators, the OS file locks it competes
  for, and the passes that combine them. During one pass the locks held by other processes are
  taken to be stable; SlotProtocol treats arbitrary interleavings.
 */
module NodePool {
  import opened Base
  import opened Allocator

  datatype NodeSlot = NodeSlot(node: string, gpu: GpuInfo) {
    function Key(): LockKey { LockKey(node, gpu.index) }
  }

  function Keys(slots: seq<NodeSlot>): set<LockKey> {
    set s | s in slots :: s.Key()
  }

  function SlotsOn(node: string, gpus: seq<GpuInfo>): seq<NodeSlot> {
    seq(|gpus|, i requires 0 <= i < |gpus| => NodeSlot(node, gpus[i]))
  }

  /** The OS lock table as one process sees it. */
  class FileLocks {
    var others: set<LockKey>
    var mine: set<LockKey>

    constructor ()
      ensures others == {} && mine == {}
    {
      others, mine := {}, {};
    }

    function Busy(): set<LockKey>
      reads this
    {
      others + mine
    }

    /** Non-blocking acquire: succeeds exactly when nobody, this process included, holds the lock. */
    method TryAcquire(key: LockKey) returns (ok: bool)
      modifies this
      ensures ok <==> key !in old(Busy())
      ensures others == old(others)
      ensures mine == if ok then old(mine) + {key} else old(mine)
    {
      ok := key !in others && key !in mine;
      if ok {
        mine := mine + {key};
      }
    }

    method Release(key: LockKey)
      modifies this
      ensures others == old(others)
      ensures mine == old(mine) - {key}
    {
      mine := mine - {key};
    }
  }

  method ReturnAll(alloc: GpuAllocator, gpus: seq<GpuInfo>)
    modifies alloc
    ensures alloc.available == old(alloc.available) + IndexSet(gpus)
  {
    for i := 0 to |gpus|
      invariant alloc.available == old(alloc.available) + IndexSet(gpus[..i])
    {
      alloc.Release(gpus[i]);
      assert gpus[..i + 1] == gpus[..i] + [gpus[i]];
    }
    assert gpus[..|gpus|] == gpus;
  }

  /** Candidates of one node whose file lock nobody holds. */
  ghost function Grabbable(node: string, candidates: set<GpuInfo>, busy: set<LockKey>): set<GpuInfo> {
    set g | g in candidates && LockKey(node, g.index) !in busy
  }

  /** The two-phase grab: the first candidate leaves memory, then its lock is tried without waiting. */
  method TakeAndTryLock(node: string, alloc: GpuAllocator, locks: FileLocks, vramGb: real)
    returns (gpu: Option<GpuInfo>, locked: bool)
    requires alloc.Valid()
    modifies alloc, locks
    ensures locks.others == old(locks.others)
    ensures gpu.None? <==> old(alloc.Candidates(vramGb)) == {}
    ensures gpu.None? ==> !locked && alloc.available == old(alloc.available) && locks.mine == old(locks.mine)
    ensures gpu.Some? ==>
              && IsLeast(gpu.value, old(alloc.Candidates(vramGb)))
              && alloc.available == old(alloc.available) - {gpu.value.index}
              && alloc.Candidates(vramGb) == old(alloc.Candidates(vramGb)) - {gpu.value}
              && locked == (LockKey(node, gpu.value.index) !in old(locks.Busy()))
              && locks.mine == if locked then old(locks.mine) + {LockKey(node, gpu.value.index)} else old(locks.mine)
  {
    gpu := alloc.Allocate(vramGb);
    locked := false;
    if gpu.Some? {
      locked := locks.TryAcquire(LockKey(node, gpu.value.index));
    }
  }

  /** The inner loop of the scan: GPUs whose lock is held are parked, out of memory, until one locks. */
  method ParkUntilLocked(node: string, alloc: GpuAllocator, locks: FileLocks, vramGb: real)
    returns (won: Option<GpuInfo>, parked: seq<GpuInfo>)
    requires alloc.Valid()
    modifies alloc, locks
    ensures locks.others == old(locks.others)
    ensures forall g :: g in parked ==> g in old(alloc.Candidates(vramGb)) && g !in Grabbable(node, old(alloc.Candidates(vramGb)), old(locks.Busy()))
    ensures won.None? <==> Grabbable(node, old(alloc.Candidates(vramGb)), old(locks.Busy())) == {}
    ensures won.None? ==> locks.mine == old(locks.mine) && alloc.available == old(alloc.available) - IndexSet(parked)
    ensures won.Some? ==>
              && IsLeast(won.value, Grabbable(node, old(alloc.Candidates(vramGb)), old(locks.Busy())))
              && alloc.available == old(alloc.available) - {won.value.index} - IndexSet(parked)
              && locks.mine == old(locks.mine) + {LockKey(node, won.value.index)}
  {
    won, parked := None, [];
    ghost var all, grab := alloc.Candidates(vramGb), Grabbable(node, alloc.Candidates(vramGb), locks.Busy());
    ParkedNone(all, grab, alloc.available);
    while won.None?
      invariant won.None? && locks.others == old(locks.others) && locks.mine == old(locks.mine)
      invariant Parking(all, grab, old(alloc.available), parked, alloc.Candidates(vramGb), alloc.available)
      decreases |alloc.Candidates(vramGb)|
    {
      ghost var left, avail := alloc.Candidates(vramGb), alloc.available;
      var gpu, locked := TakeAndTryLock(node, alloc, locks, vramGb);
      if gpu.None? {
        break;
      }
      ParkedStep(all, grab, old(alloc.available), parked, left, avail, gpu.value);
      if locked {
        won := gpu;
        break;
      }
      parked := parked + [gpu.value];
    }
  }

  /** Mid-scan state: the parked GPUs, none of them grabbable, are what memory and the candidates lack. */
  ghost predicate Parking(all: set<GpuInfo>, grab: set<GpuInfo>, avail: set<int>, parked: seq<GpuInfo>,
                          left: set<GpuInfo>, availNow: set<int>)
  {
    && grab <= all
    && (forall g :: g in parked ==> g in all && g !in grab)
    && left == all - (set g | g in parked)
    && availNow == avail - IndexSet(parked)
  }

  lemma ParkedNone(all: set<GpuInfo>, grab: set<GpuInfo>, avail: set<int>)
    requires grab <= all
    ensures Parking(all, grab, avail, [], all, avail)
  {
  }

  /** The first remaining candidate either wins the scan or is parked with the others. */
  lemma ParkedStep(all: set<GpuInfo>, grab: set<GpuInfo>, avail: set<int>, parked: seq<GpuInfo>,
                   left: set<GpuInfo>, availNow: set<int>, g: GpuInfo)
    requires Parking(all, grab, avail, parked, left, availNow) && IsLeast(g, left)
    ensures g in grab ==> IsLeast(g, grab) && availNow - {g.index} == avail - {g.index} - IndexSet(parked)
    ensures g !in grab ==> Parking(all, grab, avail, parked + [g], left - {g}, availNow - {g.index})
  {
    assert IndexSet(parked + [g]) == IndexSet(parked) + {g.index};
    if g in grab {
      forall x | x in grab
        ensures BeforeOrSame(g, x)
      {
        assert x in left;
      }
    }
  }

  /**
    The scan of one node: take the first candidate, park it when its lock is held, and try the
    next. Parked GPUs are put back, twice on success, without changing anything else.
   */
  method ScanNode(node: string, alloc: GpuAllocator, locks: FileLocks, vramGb: real)
    returns (slot: Option<NodeSlot>)
    requires alloc.Valid()
    modifies alloc, locks
    ensures locks.others == old(locks.others)
    ensures slot.None? <==> Grabbable(node, old(alloc.Candidates(vramGb)), old(locks.Busy())) == {}
    ensures slot.None? ==> alloc.available == old(alloc.available) && locks.mine == old(locks.mine)
    ensures slot.Some? ==>
              && slot.value.node == node
              && IsLeast(slot.value.gpu, Grabbable(node, old(alloc.Candidates(vramGb)), old(locks.Busy())))
              && alloc.available == old(alloc.available) - {slot.value.gpu.index}
              && locks.mine == old(locks.mine) + {slot.value.Key()}
  {
    ghost var avail := alloc.available;
    ghost var all, grab := alloc.Candidates(vramGb), Grabbable(node, alloc.Candidates(vramGb), locks.Busy());
    var won, parked := ParkUntilLocked(node, alloc, locks, vramGb);
    ParkedReturned(all, grab, avail, parked, won);
    slot := None;
    if won.Some? {
      ReturnAll(alloc, parked);
      slot := Some(NodeSlot(node, won.value));
    }
    ReturnAll(alloc, parked);
  }

  /** Putting the parked GPUs back, once or twice, leaves out exactly the GPU that was won. */
  lemma ParkedReturned(all: set<GpuInfo>, grab: set<GpuInfo>, avail: set<int>, parked: seq<GpuInfo>, won: Option<GpuInfo>)
    requires DistinctIndices(all) && grab <= all && (won.Some? ==> won.value in grab)
    requires forall g :: g in all ==> g.index in avail
    requires forall g :: g in parked ==> g in all && g !in grab
    ensures avail - IndexSet(parked) + IndexSet(parked) == avail
    ensures won.Some? ==>
              var rest := avail - {won.value.index};
              rest - IndexSet(parked) + IndexSet(parked) == rest && rest + IndexSet(parked) == rest
  {
    forall g | g in parked
      ensures g.index in avail && (won.Some? ==> g.index != won.value.index)
    {
    }
  }

  function KeysOn(node: string, gpus: seq<GpuInfo>): set<LockKey> {
    set g | g in gpus :: LockKey(node, g.index)
  }

  /** Gives back fully acquired GPUs: for each, the lock first, then the in-memory entry. */
  method RollBack(node: string, alloc: GpuAllocator, locks: FileLocks, got: seq<GpuInfo>)
    modifies alloc, locks
    ensures locks.others == old(locks.others)
    ensures locks.mine == old(locks.mine) - KeysOn(node, got)
    ensures alloc.available == old(alloc.available) + IndexSet(got)
  {
    for i := 0 to |got|
      invariant locks.others == old(locks.others)
      invariant locks.mine == old(locks.mine) - KeysOn(node, got[..i])
      invariant alloc.available == old(alloc.available) + IndexSet(got[..i])
    {
      locks.Release(LockKey(node, got[i].index));
      alloc.Release(got[i]);
      assert got[..i + 1] == got[..i] + [got[i]];
    }
    assert got[..|got|] == got;
  }

  /** The state of a node after exactly the GPUs of got were taken and locked, starting from avail and mine. */
  ghost predicate Holding(node: string, got: seq<GpuInfo>, avail: set<int>, mine: set<LockKey>,
                          availNow: set<int>, mineNow: set<LockKey>)
  {
    && (forall g :: g in got ==> g.index in avail && LockKey(node, g.index) !in mine)
    && availNow == avail - IndexSet(got)
    && mineNow == mine + KeysOn(node, got)
  }

  /** Rolling back what is held restores memory and locks exactly. */
  lemma RollBackRestores(node: string, got: seq<GpuInfo>, avail: set<int>, mine: set<LockKey>,
                         availNow: set<int>, mineNow: set<LockKey>)
    requires Holding(node, got, avail, mine, availNow, mineNow)
    ensures availNow + IndexSet(got) == avail
    ensures mineNow - KeysOn(node, got) == mine
  {
  }

  lemma HoldingOneMore(node: string, got: seq<GpuInfo>, g: GpuInfo, avail: set<int>, mine: set<LockKey>,
                       availNow: set<int>, mineNow: set<LockKey>)
    requires Holding(node, got, avail, mine, availNow, mineNow)
    requires g.index in availNow && LockKey(node, g.index) !in mineNow
    ensures Holding(node, got + [g], avail, mine, availNow - {g.index}, mineNow + {LockKey(node, g.index)})
  {
    assert IndexSet(got + [g]) == IndexSet(got) + {g.index};
    assert KeysOn(node, got + [g]) == KeysOn(node, got) + {LockKey(node, g.index)};
  }

  /** What a greedy pass needs of one node: enough candidates, and the first count of them unlocked. */
  predicate CanGather(node: string, ranked: seq<GpuInfo>, busy: set<LockKey>, count: int) {
    count <= |ranked| && Unlocked(node, ranked, busy, count)
  }

  predicate Unlocked(node: string, ranked: seq<GpuInfo>, busy: set<LockKey>, n: int)
    requires n <= |ranked|
  {
    forall i :: 0 <= i < n ==> LockKey(node, ranked[i].index) !in busy
  }

  /** One grab of the all-or-nothing pass; a failed lock puts the GPU back at once. */
  method TakeLocked(node: string, alloc: GpuAllocator, locks: FileLocks, vramGb: real)
    returns (gpu: Option<GpuInfo>)
    requires alloc.Valid()
    modifies alloc, locks
    ensures locks.others == old(locks.others)
    ensures var ranked := old(Ranked(alloc.Candidates(vramGb)));
            && (gpu.Some? <==> CanGather(node, ranked, old(locks.Busy()), 1))
            && (gpu.Some? ==> gpu.value == ranked[0] && Ranked(alloc.Candidates(vramGb)) == ranked[1..])
    ensures gpu.Some? ==>
              && gpu.value.index in old(alloc.available)
              && alloc.available == old(alloc.available) - {gpu.value.index}
              && locks.mine == old(locks.mine) + {LockKey(node, gpu.value.index)}
    ensures gpu.None? ==> alloc.available == old(alloc.available) && locks.mine == old(locks.mine)
  {
    var locked;
    gpu, locked := TakeAndTryLock(node, alloc, locks, vramGb);
    if gpu.Some? {
      LeastUnique(gpu.value, old(alloc.Candidates(vramGb)));
      assert gpu.value == old(Ranked(alloc.Candidates(vramGb)))[0];
      if !locked {
        alloc.Release(gpu.value);
        gpu := None;
      }
    }
  }

  /** The values a node had before a pass: its ranking, and the locks and memory that must come back. */
  datatype Snapshot = Snapshot(ranked: seq<GpuInfo>, busy: set<LockKey>, avail: set<int>, mine: set<LockKey>)

  ghost function SnapshotOf(alloc: GpuAllocator, locks: FileLocks, vramGb: real): Snapshot
    requires alloc.Valid()
    reads alloc, locks
  {
    Snapshot(Ranked(alloc.Candidates(vramGb)), locks.Busy(), alloc.available, locks.mine)
  }

  /** Exactly the first n GPUs of the ranking have been taken and locked since the snapshot. */
  ghost predicate Gathered(node: string, alloc: GpuAllocator, locks: FileLocks, vramGb: real, was: Snapshot, n: nat)
    requires alloc.Valid()
    reads alloc, locks
  {
    && n <= |was.ranked|
    && Ranked(alloc.Candidates(vramGb)) == was.ranked[n..]
    && Unlocked(node, was.ranked, was.busy, n)
    && Holding(node, was.ranked[..n], was.avail, was.mine, alloc.available, locks.mine)
    && locks.Busy() == was.busy + KeysOn(node, was.ranked[..n])
  }

  lemma GatheredNone(node: string, alloc: GpuAllocator, locks: FileLocks, vramGb: real)
    requires alloc.Valid()
    ensures var was := SnapshotOf(alloc, locks, vramGb);
            NoRepeats(was.ranked) && Gathered(node, alloc, locks, vramGb, was, 0)
  {
    RankedIsSorted(alloc.Candidates(vramGb));
  }

  method GatherOne(node: string, alloc: GpuAllocator, locks: FileLocks, vramGb: real, ghost was: Snapshot, n: nat)
    returns (gpu: Option<GpuInfo>)
    requires alloc.Valid() && Gathered(node, alloc, locks, vramGb, was, n)
    requires NoRepeats(was.ranked)
    modifies alloc, locks
    ensures locks.others == old(locks.others)
    ensures gpu.Some? <==> CanGather(node, was.ranked, was.busy, n + 1)
    ensures gpu.Some? ==>
              && gpu.value == was.ranked[n] && was.ranked[..n] + [gpu.value] == was.ranked[..n + 1]
              && Gathered(node, alloc, locks, vramGb, was, n + 1)
    ensures gpu.None? ==> Gathered(node, alloc, locks, vramGb, was, n)
    ensures CanGather(node, was.ranked, was.busy, n)
  {
    ghost var availNow, mineNow := alloc.available, locks.mine;
    NextGather(node, was.ranked, n, was.busy, locks.Busy());
    gpu := TakeLocked(node, alloc, locks, vramGb);
    if gpu.Some? {
      HoldingOneMore(node, was.ranked[..n], gpu.value, was.avail, was.mine, availNow, mineNow);
    }
  }

  lemma GatherMonotone(node: string, ranked: seq<GpuInfo>, busy: set<LockKey>, m: int, n: int)
    requires m <= n
    ensures CanGather(node, ranked, busy, n) ==> CanGather(node, ranked, busy, m)
  {
  }

  /** The grabbing loop: stops at the first GPU that cannot be taken and locked. */
  method GatherUpTo(node: string, alloc: GpuAllocator, locks: FileLocks, count: int, vramGb: real)
    returns (acquired: seq<GpuInfo>, complete: bool)
    requires alloc.Valid()
    modifies alloc, locks
    ensures locks.others == old(locks.others)
    ensures var was := old(SnapshotOf(alloc, locks, vramGb));
            && Gathered(node, alloc, locks, vramGb, was, |acquired|)
            && acquired == was.ranked[..|acquired|]
            && complete == CanGather(node, was.ranked, was.busy, count)
            && (complete ==> |acquired| == if count < 0 then 0 else count)
  {
    ghost var was := SnapshotOf(alloc, locks, vramGb);
    GatheredNone(node, alloc, locks, vramGb);
    acquired := [];
    while |acquired| < count
      invariant locks.others == old(locks.others)
      invariant Gathered(node, alloc, locks, vramGb, was, |acquired|)
      invariant acquired == was.ranked[..|acquired|]
      invariant 0 < |acquired| ==> |acquired| <= count
      invariant CanGather(node, was.ranked, was.busy, |acquired|)
    {
      var gpu := GatherOne(node, alloc, locks, vramGb, was, |acquired|);
      GatherMonotone(node, was.ranked, was.busy, |acquired| + 1, count);
      if gpu.None? {
        return acquired, false;
      }
      acquired := acquired + [gpu.value];
    }
    GatherMonotone(node, was.ranked, was.busy, count, |acquired|);
    return acquired, true;
  }

  /**
    Once the first i GPUs of a ranking are locked, the rest of the ranking can serve one more
    exactly when the whole ranking could serve i + 1.
   */
  lemma NextGather(node: string, ranked: seq<GpuInfo>, i: nat, busy: set<LockKey>, busyNow: set<LockKey>)
    requires i <= |ranked| && Unlocked(node, ranked, busy, i)
    requires NoRepeats(ranked)
    requires busyNow == busy + KeysOn(node, ranked[..i])
    ensures CanGather(node, ranked[i..], busyNow, 1) <==> CanGather(node, ranked, busy, i + 1)
    ensures i < |ranked| ==> ranked[i..][1..] == ranked[i + 1..] && ranked[..i] + [ranked[i]] == ranked[..i + 1]
    ensures i < |ranked| && LockKey(node, ranked[i].index) in busyNow ==> LockKey(node, ranked[i].index) in busy
  {
    if i < |ranked| {
      forall g | g in ranked[..i]
        ensures g.index != ranked[i].index
      {
        var k :| 0 <= k < i && ranked[..i][k] == g;
      }
    }
  }

  /**
    The all-or-nothing grab on one node. A GPU whose lock is held is not skipped: it makes the
    node fail, and everything taken so far goes back.
   */
  method GatherNode(node: string, alloc: GpuAllocator, locks: FileLocks, count: int, vramGb: real)
    returns (got: Option<seq<GpuInfo>>)
    requires alloc.Valid()
    modifies alloc, locks
    ensures locks.others == old(locks.others)
    ensures var ranked := old(Ranked(alloc.Candidates(vramGb)));
            && (got.Some? <==> CanGather(node, ranked, old(locks.Busy()), count))
            && (got.Some? ==> got.value == ranked[..if count < 0 then 0 else count])
    ensures got.Some? ==> Holding(node, got.value, old(alloc.available), old(locks.mine), alloc.available, locks.mine)
    ensures got.None? ==> alloc.available == old(alloc.available) && locks.mine == old(locks.mine)
  {
    var acquired, complete := GatherUpTo(node, alloc, locks, count, vramGb);
    if !complete {
      RollBackRestores(node, acquired, old(alloc.available), old(locks.mine), alloc.available, locks.mine);
      RollBack(node, alloc, locks, acquired);
      return None;
    }
    return Some(acquired);
  }

  /** Whether a list of pinned indices can be taken and locked in full, one after the other. */
  predicate CanPin(node: string, pool: set<int>, avail: set<int>, busy: set<LockKey>, indices: seq<int>) {
    forall i :: 0 <= i < |indices| ==>
      && indices[i] in pool && indices[i] in avail
      && LockKey(node, indices[i]) !in busy && indices[i] !in indices[..i]
  }

  /** Index k is outside the pool, and the loop gets that far. */
  predicate LeaksAt(node: string, pool: set<int>, avail: set<int>, busy: set<LockKey>, indices: seq<int>, k: nat) {
    k < |indices| && indices[k] !in pool && CanPin(node, pool, avail, busy, indices[..k])
  }

  /** The loop over pinned indices reaches one outside the pool, and raises there without rolling back. */
  ghost predicate Leaks(node: string, pool: set<int>, avail: set<int>, busy: set<LockKey>, indices: seq<int>) {
    exists k: nat :: LeaksAt(node, pool, avail, busy, indices, k)
  }

  /** A list that names an index twice can never be had, in any state: its request waits until it times out. */
  lemma DuplicatesNeverPin(node: string, pool: set<int>, avail: set<int>, busy: set<LockKey>, indices: seq<int>, i: nat, j: nat)
    requires i < j < |indices| && indices[i] == indices[j]
    ensures !CanPin(node, pool, avail, busy, indices)
  {
    assert indices[..j][i] == indices[j];
  }

  function Indices(gpus: seq<GpuInfo>): seq<int> {
    seq(|gpus|, i requires 0 <= i < |gpus| => gpus[i].index)
  }

  datatype PinOutcome = Pinned(gpus: seq<GpuInfo>) | Blocked | RaisedOutOfPool

  method PinOne(node: string, alloc: GpuAllocator, locks: FileLocks, index: int, ghost was: Snapshot, ghost got: seq<GpuInfo>)
    returns (r: Result<GpuInfo, SpecificError>)
    requires alloc.Valid() && Holding(node, got, was.avail, was.mine, alloc.available, locks.mine)
    requires locks.Busy() == was.busy + KeysOn(node, got)
    modifies alloc, locks
    ensures locks.others == old(locks.others)
    ensures r == Failure(OutOfPool) <==> index !in IndexSet(alloc.pool)
    ensures r.Success? <==>
              && index in IndexSet(alloc.pool) && index in was.avail && index !in Indices(got)
              && LockKey(node, index) !in was.busy
    ensures r.Success? ==> r.value.index == index
    ensures Holding(node, if r.Success? then got + [r.value] else got,
                    was.avail, was.mine, alloc.available, locks.mine)
  {
    ghost var availNow, mineNow := alloc.available, locks.mine;
    assert index in IndexSet(got) <==> index in Indices(got) by {
      if index in Indices(got) {
        var i :| 0 <= i < |got| && Indices(got)[i] == index;
        assert got[i] in got;
      }
      forall g | g in got
        ensures g.index in Indices(got)
      {
        var i :| 0 <= i < |got| && got[i] == g;
        assert Indices(got)[i] == g.index;
      }
    }
    assert LockKey(node, index) in KeysOn(node, got) ==> index in IndexSet(got);
    r := alloc.AllocateSpecific(index);
    if r.Success? {
      var locked := locks.TryAcquire(LockKey(node, index));
      if locked {
        HoldingOneMore(node, got, r.value, was.avail, was.mine, availNow, mineNow);
      } else {
        alloc.Release(r.value);
        r := Failure(Taken);
      }
      assert index in availNow;
    } else if r.error == Taken {
      assert index !in availNow;
    }
  }

  /** Where the loop over pinned indices stops decides how it ends. */
  lemma LeaksAtLongest(node: string, owned: set<int>, avail: set<int>, busy: set<LockKey>, indices: seq<int>, n: nat)
    requires n <= |indices| && CanPin(node, owned, avail, busy, indices[..n])
    requires n < |indices| ==> !CanPin(node, owned, avail, busy, indices[..n + 1])
    ensures CanPin(node, owned, avail, busy, indices) <==> n == |indices|
    ensures Leaks(node, owned, avail, busy, indices) <==> n < |indices| && indices[n] !in owned
  {
    if n < |indices| {
      PinPrefix(node, owned, avail, busy, indices, n);
      forall k | n < k <= |indices| ensures !CanPin(node, owned, avail, busy, indices[..k]) {
        PinPrefix(node, owned, avail, busy, indices[..k], n);
        assert indices[..k][..n] == indices[..n] && indices[..k][..n + 1] == indices[..n + 1];
      }
      assert indices[..|indices|] == indices;
      forall k | 0 <= k < n ensures indices[k] in owned {
        assert indices[..n][k] == indices[k];
      }
      if indices[n] !in owned {
        assert LeaksAt(node, owned, avail, busy, indices, n);
      }
    } else {
      assert indices[..n] == indices;
      assert forall k :: 0 <= k < n ==> indices[k] in owned;
    }
  }

  lemma OwnedNeverLeaks(node: string, pool: set<int>, avail: set<int>, busy: set<LockKey>, indices: seq<int>)
    requires forall i :: i in indices ==> i in pool
    ensures !Leaks(node, pool, avail, busy, indices)
  {
    forall k: nat | k < |indices| ensures indices[k] in pool {
      var i := indices[k];
      assert i in indices;
    }
  }

  /**
    All-or-nothing acquisition of pinned indices. Success covers every index, in order, and is
    possible exactly when CanPin holds; so the list then has no duplicates. A blocked attempt
    restores memory and locks. An index outside the pool raises out of the loop, and what was
    taken before it stays taken: callers have to check membership first.
   */
  method TryPin(node: string, alloc: GpuAllocator, locks: FileLocks, indices: seq<int>)
    returns (r: PinOutcome)
    requires alloc.Valid()
    modifies alloc, locks
    ensures locks.others == old(locks.others)
    ensures r.Pinned? <==> CanPin(node, IndexSet(alloc.pool), old(alloc.available), old(locks.Busy()), indices)
    ensures r.Pinned? ==>
              && Indices(r.gpus) == indices
              && Holding(node, r.gpus, old(alloc.available), old(locks.mine), alloc.available, locks.mine)
    ensures r.Blocked? ==> alloc.available == old(alloc.available) && locks.mine == old(locks.mine)
    ensures r.RaisedOutOfPool? <==> Leaks(node, IndexSet(alloc.pool), old(alloc.available), old(locks.Busy()), indices)
    ensures r.RaisedOutOfPool? ==>
              exists k: nat, got ::
                && LeaksAt(node, IndexSet(alloc.pool), old(alloc.available), old(locks.Busy()), indices, k)
                && Indices(got) == indices[..k]
                && Holding(node, got, old(alloc.available), old(locks.mine), alloc.available, locks.mine)
  {
    ghost var was := Snapshot([], locks.Busy(), alloc.available, locks.mine);
    var acquired: seq<GpuInfo> := [];
    for i := 0 to |indices|
      invariant locks.others == old(locks.others)
      invariant Indices(acquired) == indices[..i]
      invariant CanPin(node, IndexSet(alloc.pool), was.avail, was.busy, indices[..i])
      invariant Holding(node, acquired, was.avail, was.mine, alloc.available, locks.mine)
    {
      PinPrefix(node, IndexSet(alloc.pool), was.avail, was.busy, indices, i);
      var g := PinOne(node, alloc, locks, indices[i], was, acquired);
      if g.Failure? {
        LeaksAtLongest(node, IndexSet(alloc.pool), was.avail, was.busy, indices, i);
      }
      if g == Failure(OutOfPool) {
        assert LeaksAt(node, IndexSet(alloc.pool), was.avail, was.busy, indices, i);
        return RaisedOutOfPool;
      }
      if g.Failure? {
        RollBackRestores(node, acquired, was.avail, was.mine, alloc.available, locks.mine);
        RollBack(node, alloc, locks, acquired);
        return Blocked;
      }
      acquired := acquired + [g.value];
    }
    assert indices[..|indices|] == indices;
    LeaksAtLongest(node, IndexSet(alloc.pool), was.avail, was.busy, indices, |indices|);
    return Pinned(acquired);
  }

  lemma PinPrefix(node: string, pool: set<int>, avail: set<int>, busy: set<LockKey>, indices: seq<int>, i: nat)
    requires i < |indices| && CanPin(node, pool, avail, busy, indices[..i])
    ensures indices[..i + 1] == indices[..i] + [indices[i]]
    ensures CanPin(node, pool, avail, busy, indices[..i + 1]) <==>
              && indices[i] in pool && indices[i] in avail
              && LockKey(node, indices[i]) !in busy && indices[i] !in indices[..i]
    ensures CanPin(node, pool, avail, busy, indices) ==> CanPin(node, pool, avail, busy, indices[..i + 1])
  {
    forall k | 0 <= k <= i
      ensures indices[..i + 1][..k] == indices[..k] && (k < i ==> indices[..i][..k] == indices[..k])
    {
    }
    assert indices[..i + 1][i] == indices[i];
  }

  /**
    An input that leaks: on a node with GPU 0 alone, the list [0, 7] takes and locks GPU 0, raises at
    7, and leaves GPU 0 out of memory and locked.
   */
  method LeakingPin() returns (alloc: GpuAllocator, locks: FileLocks, r: PinOutcome)
    ensures r.RaisedOutOfPool? && alloc.pool == [GpuInfo(0, 1024, 0)]
    ensures alloc.available == {} && locks.mine == {LockKey("n", 0)}
  {
    alloc := new GpuAllocator([GpuInfo(0, 1024, 0)], 0.0);
    locks := new FileLocks();
    assert IndexSet(alloc.pool) == {0} && alloc.available == {0} && locks.Busy() == {};
    assert [0, 7][..1] == [0] && [0, 7][..0] == [];
    assert LeaksAt("n", IndexSet(alloc.pool), alloc.available, locks.Busy(), [0, 7], 1);
    r := TryPin("n", alloc, locks, [0, 7]);
    OnlyLeakAt("n");
  }

  lemma OnlyLeakAt(node: string)
    ensures forall k: nat :: LeaksAt(node, {0}, {0}, {}, [0, 7], k) ==> k == 1
    ensures forall got: seq<GpuInfo> :: Indices(got) == [0] ==> IndexSet(got) == {0} && KeysOn(node, got) == {LockKey(node, 0)}
  {
    forall got: seq<GpuInfo> | Indices(got) == [0]
      ensures IndexSet(got) == {0} && KeysOn(node, got) == {LockKey(node, 0)}
    {
      assert |got| == 1 && Indices(got)[0] == got[0].index == 0;
      assert got == [got[0]];
    }
  }
}
