/**
  Acquisition over the whole fleet: one pass over the nodes in order, the capacity precheck, and
  the retry loops that repeat a pass until it succeeds or the deadline has passed.
 */
module Acquisition {
  import opened Base
  import opened Allocator
  import opened NodePool
  import opened Priority

  class Pool {
    const nodes: seq<string>
    const allocators: map<string, GpuAllocator>
    const locks: FileLocks
    const headroomGb: real

    ghost predicate Valid() {
      && (forall n :: n in allocators ==> allocators[n].Valid() && allocators[n].headroomGb == headroomGb)
      && (forall m, n :: m in allocators && n in allocators && allocators[m] == allocators[n] ==> m == n)
    }

    constructor (nodes: seq<string>, allocators: map<string, GpuAllocator>, locks: FileLocks, headroomGb: real)
      requires forall n :: n in allocators ==> allocators[n].Valid() && allocators[n].headroomGb == headroomGb
      requires forall m, n :: m in allocators && n in allocators && allocators[m] == allocators[n] ==> m == n
      ensures Valid()
      ensures this.nodes == nodes && this.allocators == allocators && this.locks == locks
      ensures this.headroomGb == headroomGb
    {
      this.nodes := nodes;
      this.allocators := allocators;
      this.locks := locks;
      this.headroomGb := headroomGb;
    }

    ghost function Objects(): set<object> {
      (set n | n in allocators :: allocators[n] as object) + {locks}
    }

    /** Every node's available indices. */
    ghost function Memory(): map<string, set<int>>
      reads Objects()
    {
      map n | n in allocators :: allocators[n].available
    }

    /** The GPUs of a node that a request for one GPU could get, given memory and the busy locks. */
    ghost function Offers(node: string, memory: map<string, set<int>>, busy: set<LockKey>, vramGb: real): set<GpuInfo>
      requires memory.Keys == allocators.Keys
    {
      if node in allocators then Grabbable(node, allocators[node].CandidatesIn(memory[node], vramGb), busy) else {}
    }

    /** The GPUs of a node in allocation order, given memory. */
    ghost function Ranking(node: string, memory: map<string, set<int>>, vramGb: real): seq<GpuInfo>
      requires Valid() && memory.Keys == allocators.Keys
    {
      if node in allocators then Ranked(allocators[node].CandidatesIn(memory[node], vramGb)) else []
    }

    // ---- one pass ----

    /** None of the first k nodes has an offer. */
    ghost predicate NoOfferBefore(k: nat, memory: map<string, set<int>>, busy: set<LockKey>, vramGb: real)
      requires memory.Keys == allocators.Keys && k <= |nodes|
    {
      forall j :: 0 <= j < k ==> Offers(nodes[j], memory, busy, vramGb) == {}
    }

    lemma OneMoreWithoutOffer(k: nat, memory: map<string, set<int>>, busy: set<LockKey>, vramGb: real)
      requires memory.Keys == allocators.Keys && k < |nodes|
      requires NoOfferBefore(k, memory, busy, vramGb) && Offers(nodes[k], memory, busy, vramGb) == {}
      ensures NoOfferBefore(k + 1, memory, busy, vramGb)
    {
    }

    /** Memory after exactly the given indices of a node were taken. */
    ghost function Minus(memory: map<string, set<int>>, node: string, indices: set<int>): map<string, set<int>>
      requires node in memory
    {
      memory[node := memory[node] - indices]
    }

    /** The scan of one node of the fleet. */
    method ScanOn(node: string, vramGb: real) returns (slot: Option<NodeSlot>)
      requires Valid() && node in allocators
      modifies Objects()
      ensures locks.others == old(locks.others)
      ensures slot.None? <==> Offers(node, old(Memory()), old(locks.Busy()), vramGb) == {}
      ensures slot.None? ==> Memory() == old(Memory()) && locks.mine == old(locks.mine)
      ensures slot.Some? ==>
                && slot.value.node == node
                && IsLeast(slot.value.gpu, Offers(node, old(Memory()), old(locks.Busy()), vramGb))
                && Memory() == Minus(old(Memory()), node, {slot.value.gpu.index})
                && locks.mine == old(locks.mine) + {slot.value.Key()}
    {
      assert allocators[node].available == Memory()[node];
      slot := ScanNode(node, allocators[node], locks, vramGb);
      OnlyChanged(node);
    }

    /**
      One pass of the single-GPU scan. It stops at the first node with an offer and takes that
      node's first offer in allocation order; memory and locks change by that GPU alone. Running
      out of nodes is failure, and then nothing has changed.
     */
    method ScanPass(vramGb: real) returns (k: nat, slot: Option<NodeSlot>)
      requires Valid()
      modifies Objects()
      ensures locks.others == old(locks.others)
      ensures k <= |nodes| && NoOfferBefore(k, old(Memory()), old(locks.Busy()), vramGb)
      ensures slot.None? <==> k == |nodes|
      ensures slot.None? ==> Memory() == old(Memory()) && locks.mine == old(locks.mine)
      ensures slot.Some? ==>
                && slot.value.node == nodes[k] && nodes[k] in allocators
                && IsLeast(slot.value.gpu, Offers(nodes[k], old(Memory()), old(locks.Busy()), vramGb))
                && Memory() == Minus(old(Memory()), nodes[k], {slot.value.gpu.index})
                && locks.mine == old(locks.mine) + {slot.value.Key()}
    {
      k, slot := 0, None;
      while k < |nodes|
        invariant k <= |nodes| && slot.None?
        invariant locks.others == old(locks.others) && locks.mine == old(locks.mine)
        invariant Memory() == old(Memory())
        invariant NoOfferBefore(k, old(Memory()), old(locks.Busy()), vramGb)
      {
        if nodes[k] in allocators {
          slot := ScanOn(nodes[k], vramGb);
          if slot.Some? {
            return;
          }
        }
        OneMoreWithoutOffer(k, old(Memory()), old(locks.Busy()), vramGb);
        k := k + 1;
      }
    }

    /** The nodes a multi-GPU request may use; an empty label means any node. */
    function Targets(only: Option<string>): seq<string> {
      if only.Some? && only.value != "" then OnlyNode(nodes, only.value) else nodes
    }

    ghost predicate Gatherable(node: string, memory: map<string, set<int>>, busy: set<LockKey>, count: int, vramGb: real)
      requires Valid() && memory.Keys == allocators.Keys
    {
      node in allocators && count >= 1 && CanGather(node, Ranking(node, memory, vramGb), busy, count)
    }

    /** None of the first k targets can serve the request. */
    ghost predicate NoneBefore(k: nat, targets: seq<string>, memory: map<string, set<int>>, busy: set<LockKey>,
                               count: int, vramGb: real)
      requires Valid() && memory.Keys == allocators.Keys && k <= |targets|
    {
      forall j :: 0 <= j < k ==> !Gatherable(targets[j], memory, busy, count, vramGb)
    }

    lemma OneMoreSkipped(k: nat, targets: seq<string>, memory: map<string, set<int>>, busy: set<LockKey>,
                         count: int, vramGb: real)
      requires Valid() && memory.Keys == allocators.Keys && k < |targets|
      requires NoneBefore(k, targets, memory, busy, count, vramGb)
      requires !Gatherable(targets[k], memory, busy, count, vramGb)
      ensures NoneBefore(k + 1, targets, memory, busy, count, vramGb)
    {
    }

    /** The all-or-nothing grab on one node of the fleet; no GPUs when the node cannot serve. */
    method GatherOn(node: string, count: int, vramGb: real) returns (got: seq<GpuInfo>)
      requires Valid() && node in allocators
      modifies Objects()
      ensures locks.others == old(locks.others)
      ensures got != [] <==> Gatherable(node, old(Memory()), old(locks.Busy()), count, vramGb)
      ensures got == [] ==> Memory() == old(Memory()) && locks.mine == old(locks.mine)
      ensures got != [] ==>
                && got == Ranking(node, old(Memory()), vramGb)[..count]
                && Memory() == Minus(old(Memory()), node, IndexSet(got))
                && locks.mine == old(locks.mine) + KeysOn(node, got)
    {
      var alloc := allocators[node];
      ghost var ranked, busy := Ranked(alloc.Candidates(vramGb)), locks.Busy();
      assert ranked == Ranking(node, Memory(), vramGb);
      var r := GatherNode(node, alloc, locks, count, vramGb);
      assert IndexSet([]) == {} && KeysOn(node, []) == {};
      got := if r.Some? then r.value else [];
      OnlyChanged(node);
    }

    /** When just one node's allocator changed, so did just that entry of memory. */
    twostate lemma OnlyChanged(node: string)
      requires Valid() && node in allocators
      requires forall n :: n in allocators && n != node ==> unchanged(allocators[n])
      ensures Memory() == old(Memory())[node := allocators[node].available]
      ensures allocators[node].available == old(allocators[node].available) ==> Memory() == old(Memory())
    {
    }

    /**
      One all-or-nothing pass. It stops at the first target that can give count GPUs, with exactly
      that target's first count GPUs; every target tried and abandoned is left as it was found.
      Running out of targets is failure, and then nothing has changed.
     */
    method GatherPass(count: int, targets: seq<string>, vramGb: real) returns (k: nat, got: seq<GpuInfo>)
      requires Valid()
      modifies Objects()
      ensures locks.others == old(locks.others)
      ensures k <= |targets| && NoneBefore(k, targets, old(Memory()), old(locks.Busy()), count, vramGb)
      ensures k == |targets| ==> got == [] && Memory() == old(Memory()) && locks.mine == old(locks.mine)
      ensures k < |targets| ==>
                && Gatherable(targets[k], old(Memory()), old(locks.Busy()), count, vramGb)
                && got == Ranking(targets[k], old(Memory()), vramGb)[..count]
                && Memory() == Minus(old(Memory()), targets[k], IndexSet(got))
                && locks.mine == old(locks.mine) + KeysOn(targets[k], got)
    {
      k, got := 0, [];
      while k < |targets|
        invariant k <= |targets| && got == []
        invariant locks.others == old(locks.others) && locks.mine == old(locks.mine)
        invariant Memory() == old(Memory())
        invariant NoneBefore(k, targets, old(Memory()), old(locks.Busy()), count, vramGb)
      {
        if targets[k] in allocators {
          got := GatherOn(targets[k], count, vramGb);
          if got != [] {
            return;
          }
        }
        OneMoreSkipped(k, targets, old(Memory()), old(locks.Busy()), count, vramGb);
        k := k + 1;
      }
    }

    // ---- capacity ----

    ghost function FullMemory(): map<string, set<int>> {
      map n | n in allocators :: IndexSet(allocators[n].pool)
    }

    /** The node has at least count GPUs with enough memory, used or not. */
    ghost predicate Fits(node: string, vramGb: real, count: int)
      requires Valid()
    {
      node in allocators && |Ranking(node, FullMemory(), vramGb)| >= count
    }

    predicate Allowed(node: string, only: Option<string>) {
      only.None? || node == only.value
    }

    /** The topology alone could serve the request on some node the request may use. */
    ghost predicate HasCapacity(vramGb: real, count: int, only: Option<string>)
      requires Valid()
    {
      vramGb <= 0.0 || exists n :: n in nodes && Allowed(n, only) && Fits(n, vramGb, count)
    }

    method HasVramCapacity(vramGb: real, count: int, only: Option<string>) returns (r: bool)
      requires Valid()
      ensures r == HasCapacity(vramGb, count, only)
    {
      if vramGb <= 0.0 {
        return true;
      }
      for k := 0 to |nodes|
        invariant forall n :: n in nodes[..k] && Allowed(n, only) ==> !Fits(n, vramGb, count)
      {
        assert nodes[..k + 1] == nodes[..k] + [nodes[k]];
        if Allowed(nodes[k], only) && nodes[k] in allocators {
          var n := CountEligible(allocators[nodes[k]], vramGb);
          if n >= count {
            assert nodes[k] in nodes && Fits(nodes[k], vramGb, count);
            return true;
          }
        }
      }
      assert nodes[..|nodes|] == nodes;
      return false;
    }

    lemma FitsIsIdleGather(node: string, vramGb: real, count: int)
      requires Valid() && count >= 1
      ensures Fits(node, vramGb, count) <==> Gatherable(node, FullMemory(), {}, count, vramGb)
    {
    }

    lemma GatherableFits(node: string, memory: map<string, set<int>>, busy: set<LockKey>, vramGb: real, count: int)
      requires Valid() && memory.Keys == allocators.Keys
      ensures Gatherable(node, memory, busy, count, vramGb) ==> Fits(node, vramGb, count)
    {
      if node in allocators {
        var alloc := allocators[node];
        var some, all := alloc.CandidatesIn(memory[node], vramGb), alloc.CandidatesIn(IndexSet(alloc.pool), vramGb);
        assert some <= all;
        assert all == some + (all - some);
      }
    }

    /** The restriction a pass obeys: an empty label restricts nothing. */
    function Effective(only: Option<string>): Option<string> {
      if only == Some("") then None else only
    }

    /** A pass over the idle fleet with free locks finds a target that can serve the request. */
    ghost predicate IdlePassServes(vramGb: real, count: int, only: Option<string>)
      requires Valid()
    {
      exists n :: n in Targets(only) && Gatherable(n, FullMemory(), {}, count, vramGb)
    }

    lemma EmptyLabelCapacity(vramGb: real, count: int)
      requires Valid() && vramGb > 0.0
      ensures HasCapacity(vramGb, count, Some("")) <==> "" in nodes && Fits("", vramGb, count)
    {
    }

    lemma TargetsAreAllowed(only: Option<string>)
      ensures forall n :: n in Targets(only) <==> n in nodes && Allowed(n, Effective(only))
    {
    }

    /**
      The precheck agrees with the allocator: for the nodes a pass really tries, it accepts exactly the
      requests that a pass over the idle fleet with free locks would serve.
     */
    lemma CapacityAgreesWithIdlePass(vramGb: real, count: int, only: Option<string>)
      requires Valid() && vramGb > 0.0 && count >= 1
      ensures HasCapacity(vramGb, count, Effective(only)) <==> IdlePassServes(vramGb, count, only)
    {
      forall n | n in nodes
        ensures Fits(n, vramGb, count) <==> Gatherable(n, FullMemory(), {}, count, vramGb)
      {
        FitsIsIdleGather(n, vramGb, count);
      }
      TargetsAreAllowed(only);
    }

    /**
      The source asks the precheck about the label as given. That is the right question unless the
      label is empty; for an empty label it agrees with the pass exactly when a node with an empty
      label would do or no node would.
     */
    lemma PrecheckIsRightExactlyWhen(vramGb: real, count: int, only: Option<string>)
      requires Valid() && vramGb > 0.0 && count >= 1
      ensures (HasCapacity(vramGb, count, only) <==> IdlePassServes(vramGb, count, only))
              <==> only != Some("") || ("" in nodes && Fits("", vramGb, count)) || !HasCapacity(vramGb, count, None)
    {
      CapacityAgreesWithIdlePass(vramGb, count, only);
      EmptyLabelCapacity(vramGb, count);
    }

    /** Without a node of that name, every request for memory under an empty label is rejected, even one a pass would serve. */
    lemma EmptyLabelIsRejected(vramGb: real, count: int)
      requires Valid() && vramGb > 0.0 && count >= 1 && "" !in nodes && HasCapacity(vramGb, count, None)
      ensures !HasCapacity(vramGb, count, Some("")) && IdlePassServes(vramGb, count, Some(""))
    {
      EmptyLabelCapacity(vramGb, count);
      CapacityAgreesWithIdlePass(vramGb, count, Some(""));
    }

    /** A request the precheck would reject for the nodes a pass tries could not be served in any state whatever. */
    lemma NoCapacityNeverServed(vramGb: real, count: int, only: Option<string>, memory: map<string, set<int>>, busy: set<LockKey>)
      requires Valid() && memory.Keys == allocators.Keys
      requires !HasCapacity(vramGb, count, Effective(only))
      ensures forall n :: n in Targets(only) ==> !Gatherable(n, memory, busy, count, vramGb)
    {
      TargetsAreAllowed(only);
      forall n | n in Targets(only)
        ensures !Gatherable(n, memory, busy, count, vramGb)
      {
        GatherableFits(n, memory, busy, vramGb, count);
        assert n in nodes && Allowed(n, Effective(only));
      }
    }

    // ---- retrying until the deadline ----

    /** Some node's waiting multi-GPU request makes single-GPU callers hold back this round. */
    ghost predicate Yields(round: Round, mine: set<LockKey>) {
      exists n :: n in nodes && NodeYields(n, round, mine)
    }

    ghost predicate NodeYields(node: string, round: Round, mine: set<LockKey>) {
      var gpus := if node in allocators then allocators[node].pool else [];
      ShouldYield(round.pending(node), |gpus|, FreeLocks(node, gpus, round.probed + mine))
    }

    /** In numbers: the request wants several GPUs, the node has that many, and no more than that are free. */
    ghost predicate HoldsBack(node: string, round: Round, mine: set<LockKey>) {
      var gpus := if node in allocators then allocators[node].pool else [];
      && 2 <= round.pending(node) <= |gpus|
      && FreeLocks(node, gpus, round.probed + mine) <= round.pending(node)
    }

    /** Probing happens before the scan, when the other processes may hold other locks than during it. */
    method YieldCheck(round: Round) returns (r: bool)
      modifies locks
      ensures locks.mine == old(locks.mine)
      ensures r == Yields(round, locks.mine)
      ensures r <==> exists n :: n in nodes && HoldsBack(n, round, locks.mine)
    {
      locks.others := round.probed;
      for k := 0 to |nodes|
        invariant locks.mine == old(locks.mine) && locks.others == round.probed
        invariant forall n :: n in nodes[..k] ==> !NodeYields(n, round, locks.mine)
      {
        var n := nodes[k];
        assert nodes[..k + 1] == nodes[..k] + [n];
        var gpus := if n in allocators then allocators[n].pool else [];
        var free := TrueAvailable(n, gpus, locks);
        if ShouldYield(round.pending(n), |gpus|, free) {
          assert n in nodes && NodeYields(n, round, locks.mine) && HoldsBack(n, round, locks.mine);
          return true;
        }
      }
      assert nodes[..|nodes|] == nodes;
      assert forall n :: n in nodes ==> !NodeYields(n, round, locks.mine) && !HoldsBack(n, round, locks.mine);
      return false;
    }

    /** What a round needs to serve a single-GPU caller. */
    ghost predicate ServesOne(round: Round, memory: map<string, set<int>>, mine: set<LockKey>, vramGb: real)
      requires memory.Keys == allocators.Keys
    {
      !Yields(round, mine) && !NoOfferBefore(|nodes|, memory, round.others + mine, vramGb)
    }

    /** The slot is the first offer of the first node that has one. */
    ghost predicate FirstOffer(slot: NodeSlot, memory: map<string, set<int>>, busy: set<LockKey>, vramGb: real)
      requires memory.Keys == allocators.Keys
    {
      exists k: nat ::
        && k < |nodes| && nodes[k] == slot.node && NoOfferBefore(k, memory, busy, vramGb)
        && IsLeast(slot.gpu, Offers(slot.node, memory, busy, vramGb))
    }

    /** The slot is that round's first offer, and memory and locks changed by it alone. */
    ghost predicate Won(slot: NodeSlot, round: Round, vramGb: real, memory: map<string, set<int>>, mine: set<LockKey>,
                        memoryNow: map<string, set<int>>, mineNow: set<LockKey>)
      requires memory.Keys == allocators.Keys
    {
      && slot.node in allocators
      && FirstOffer(slot, memory, round.others + mine, vramGb)
      && memoryNow == Minus(memory, slot.node, {slot.gpu.index})
      && mineNow == mine + {slot.Key()}
    }

    /** One round of acquire_slot: the yield test, and a scan unless it says to hold back. */
    method ScanRound(round: Round, vramGb: real) returns (slot: Option<NodeSlot>)
      requires Valid()
      modifies Objects()
      ensures slot.Some? <==> ServesOne(round, old(Memory()), old(locks.mine), vramGb)
      ensures slot.None? ==> Memory() == old(Memory()) && locks.mine == old(locks.mine)
      ensures slot.Some? ==> Won(slot.value, round, vramGb, old(Memory()), old(locks.mine), Memory(), locks.mine)
    {
      var yielded := YieldCheck(round);
      assert Memory() == old(Memory());
      slot := None;
      if !yielded {
        locks.others := round.others;
        assert Memory() == old(Memory());
        var k;
        k, slot := ScanPass(vramGb);
      }
    }

    /** The first n rounds ended before the deadline and could not serve the request. */
    ghost predicate Waited(n: nat, env: nat -> Round, deadline: real, vramGb: real, memory: map<string, set<int>>, mine: set<LockKey>)
      requires memory.Keys == allocators.Keys
    {
      forall i: nat :: i < n ==> env(i).now < deadline && !ServesOne(env(i), memory, mine, vramGb)
    }

    lemma WaitedOneMore(n: nat, env: nat -> Round, deadline: real, vramGb: real, memory: map<string, set<int>>, mine: set<LockKey>)
      requires memory.Keys == allocators.Keys && Waited(n, env, deadline, vramGb, memory, mine)
      requires env(n).now < deadline && !ServesOne(env(n), memory, mine, vramGb)
      ensures Waited(n + 1, env, deadline, vramGb, memory, mine)
    {
    }

    /**
      The single-GPU wait loop, for every environment whose clock advances by at least half a
      second per round. It returns in the first round that can serve the request, if the deadline
      has not passed by an earlier round's end, with that round's best offer; otherwise it gives up
      in the first round that ends at or past the deadline, leaving memory and locks as found.
     */
    method AcquireSlot(env: nat -> Round, start: real, timeout: real, vramGb: real)
      returns (r: Result<NodeSlot, AcquireError>, last: nat)
      requires Valid()
      requires forall i: nat :: env(i).now >= start + i as real / 2.0
      modifies Objects()
      ensures last < MaxRounds(timeout) && (last > 0 ==> (last - 1) as real < 2.0 * timeout)
      ensures r == Failure(NoCapacity) <==> !HasCapacity(vramGb, 1, None)
      ensures r.Failure? ==> Memory() == old(Memory()) && locks.mine == old(locks.mine)
      ensures Waited(last, env, start + timeout, vramGb, old(Memory()), old(locks.mine))
      ensures r == Failure(TimedOut) ==>
                env(last).now >= start + timeout && !ServesOne(env(last), old(Memory()), old(locks.mine), vramGb)
      ensures r.Success? ==>
                && ServesOne(env(last), old(Memory()), old(locks.mine), vramGb)
                && Won(r.value, env(last), vramGb, old(Memory()), old(locks.mine), Memory(), locks.mine)
    {
      last := 0;
      RoundsBounded(timeout, 0);
      var capacity := HasVramCapacity(vramGb, 1, None);
      if !capacity {
        return Failure(NoCapacity), 0;
      }
      while true
        invariant Memory() == old(Memory()) && locks.mine == old(locks.mine)
        invariant last < MaxRounds(timeout) && (last > 0 ==> (last - 1) as real < 2.0 * timeout)
        invariant Waited(last, env, start + timeout, vramGb, old(Memory()), old(locks.mine))
        decreases MaxRounds(timeout) - last
      {
        var slot := ScanRound(env(last), vramGb);
        if slot.Some? {
          return Success(slot.value), last;
        }
        if env(last).now >= start + timeout {
          return Failure(TimedOut), last;
        }
        WaitedOneMore(last, env, start + timeout, vramGb, old(Memory()), old(locks.mine));
        last := last + 1;
        RoundsBounded(timeout, last);
      }
    }

    // ---- the multi-GPU wait loop ----

    /** What a round needs to serve a multi-GPU request: one target that can give count GPUs. */
    ghost predicate ServesMany(round: Round, targets: seq<string>, count: int, vramGb: real,
                               memory: map<string, set<int>>, mine: set<LockKey>)
      requires Valid() && memory.Keys == allocators.Keys
    {
      !NoneBefore(|targets|, targets, memory, round.others + mine, count, vramGb)
    }

    ghost predicate WaitedMany(n: nat, env: nat -> Round, deadline: real, targets: seq<string>, count: int, vramGb: real,
                               memory: map<string, set<int>>, mine: set<LockKey>)
      requires Valid() && memory.Keys == allocators.Keys
    {
      forall i: nat :: i < n ==> env(i).now < deadline && !ServesMany(env(i), targets, count, vramGb, memory, mine)
    }

    lemma WaitedManyOneMore(n: nat, env: nat -> Round, deadline: real, targets: seq<string>, count: int, vramGb: real,
                            memory: map<string, set<int>>, mine: set<LockKey>)
      requires Valid() && memory.Keys == allocators.Keys
      requires WaitedMany(n, env, deadline, targets, count, vramGb, memory, mine)
      requires env(n).now < deadline && !ServesMany(env(n), targets, count, vramGb, memory, mine)
      ensures WaitedMany(n + 1, env, deadline, targets, count, vramGb, memory, mine)
    {
    }

    /** The GPUs are the first count of the first target that can give them, and nothing else changed. */
    ghost predicate WonMany(node: string, got: seq<GpuInfo>, round: Round, targets: seq<string>, count: int, vramGb: real,
                            memory: map<string, set<int>>, mine: set<LockKey>,
                            memoryNow: map<string, set<int>>, mineNow: set<LockKey>)
      requires Valid() && memory.Keys == allocators.Keys
    {
      && node in allocators
      && (exists k: nat ::
            k < |targets| && targets[k] == node && NoneBefore(k, targets, memory, round.others + mine, count, vramGb))
      && Gatherable(node, memory, round.others + mine, count, vramGb)
      && got == Ranking(node, memory, vramGb)[..count]
      && memoryNow == Minus(memory, node, IndexSet(got))
      && mineNow == mine + KeysOn(node, got)
    }

    /** The request leaves the choice of node open, or names this one. */
    predicate Meant(node: string, only: Option<string>) {
      only.None? || only.value == "" || only.value == node
    }

    /** No node of the fleet that the request could mean can give count GPUs in this round. */
    ghost predicate NobodyServes(round: Round, only: Option<string>, count: int, vramGb: real,
                                 memory: map<string, set<int>>, mine: set<LockKey>)
      requires Valid() && memory.Keys == allocators.Keys
    {
      forall n :: n in nodes && Meant(n, only) ==> !Gatherable(n, memory, round.others + mine, count, vramGb)
    }

    /** In the order of the fleet, node is the first that the request could mean and that can give count GPUs. */
    ghost predicate FirstToServe(node: string, round: Round, only: Option<string>, count: int, vramGb: real,
                                 memory: map<string, set<int>>, mine: set<LockKey>)
      requires Valid() && memory.Keys == allocators.Keys
    {
      exists k: nat ::
        && k < |nodes| && nodes[k] == node && Meant(node, only)
        && Gatherable(node, memory, round.others + mine, count, vramGb)
        && forall j :: 0 <= j < k && Meant(nodes[j], only) ==> !Gatherable(nodes[j], memory, round.others + mine, count, vramGb)
    }

    lemma TargetsAreMeant(only: Option<string>)
      ensures forall n :: n in Targets(only) <==> n in nodes && Meant(n, only)
    {
    }

    lemma NobodyWhenNone(round: Round, only: Option<string>, count: int, vramGb: real,
                         memory: map<string, set<int>>, mine: set<LockKey>)
      requires Valid() && memory.Keys == allocators.Keys && !ServesMany(round, Targets(only), count, vramGb, memory, mine)
      ensures NobodyServes(round, only, count, vramGb, memory, mine)
    {
      TargetsAreMeant(only);
    }

    lemma NobodyWhileWaiting(n: nat, env: nat -> Round, deadline: real, only: Option<string>, count: int, vramGb: real,
                             memory: map<string, set<int>>, mine: set<LockKey>)
      requires Valid() && memory.Keys == allocators.Keys
      requires WaitedMany(n, env, deadline, Targets(only), count, vramGb, memory, mine)
      ensures forall i: nat :: i < n ==> NobodyServes(env(i), only, count, vramGb, memory, mine)
    {
      forall i: nat | i < n ensures NobodyServes(env(i), only, count, vramGb, memory, mine) {
        NobodyWhenNone(env(i), only, count, vramGb, memory, mine);
      }
    }

    lemma {:induction false} FirstOccurrence(node: string, from: nat) returns (k: nat)
      requires from <= |nodes| && node in nodes[from..]
      ensures from <= k < |nodes| && nodes[k] == node && forall j :: from <= j < k ==> nodes[j] != node
      decreases |nodes| - from
    {
      if nodes[from] == node {
        k := from;
      } else {
        assert nodes[from..] == [nodes[from]] + nodes[from + 1..];
        k := FirstOccurrence(node, from + 1);
      }
    }

    lemma FirstWhenWon(node: string, got: seq<GpuInfo>, round: Round, only: Option<string>, count: int, vramGb: real,
                       memory: map<string, set<int>>, mine: set<LockKey>, memoryNow: map<string, set<int>>, mineNow: set<LockKey>)
      requires Valid() && memory.Keys == allocators.Keys
      requires WonMany(node, got, round, Targets(only), count, vramGb, memory, mine, memoryNow, mineNow)
      ensures FirstToServe(node, round, only, count, vramGb, memory, mine)
    {
      TargetsAreMeant(only);
      var t := Targets(only);
      var k: nat :| k < |t| && t[k] == node && NoneBefore(k, t, memory, round.others + mine, count, vramGb);
      assert node in nodes && Meant(node, only);
      if only.Some? && only.value != "" {
        assert nodes[0..] == nodes;
        var i := FirstOccurrence(node, 0);
      } else {
        assert nodes[k] == node;
      }
    }

    method GatherRound(round: Round, targets: seq<string>, count: int, vramGb: real) returns (r: Option<(string, seq<GpuInfo>)>)
      requires Valid()
      modifies Objects()
      ensures r.Some? <==> ServesMany(round, targets, count, vramGb, old(Memory()), old(locks.mine))
      ensures r.None? ==> Memory() == old(Memory()) && locks.mine == old(locks.mine)
      ensures r.Some? ==>
                WonMany(r.value.0, r.value.1, round, targets, count, vramGb, old(Memory()), old(locks.mine), Memory(), locks.mine)
    {
      locks.others := round.others;
      assert Memory() == old(Memory());
      var k, got := GatherPass(count, targets, vramGb);
      r := if k < |targets| then Some((targets[k], got)) else None;
    }

    /**
      The multi-GPU wait loop: as AcquireSlot, for count GPUs of one node. A count below one is
      never served, however long it waits.
     */
    method AcquireSlots(env: nat -> Round, start: real, timeout: real, count: int, only: Option<string>, vramGb: real)
      returns (r: Result<(string, seq<GpuInfo>), AcquireError>, last: nat)
      requires Valid()
      requires forall i: nat :: env(i).now >= start + i as real / 2.0
      modifies Objects()
      ensures last < MaxRounds(timeout) && (last > 0 ==> (last - 1) as real < 2.0 * timeout)
      ensures r == Failure(NoCapacity) <==> !HasCapacity(vramGb, count, only)
      ensures r.Failure? ==> Memory() == old(Memory()) && locks.mine == old(locks.mine)
      ensures WaitedMany(last, env, start + timeout, Targets(only), count, vramGb, old(Memory()), old(locks.mine))
      ensures r == Failure(TimedOut) ==>
                && env(last).now >= start + timeout
                && !ServesMany(env(last), Targets(only), count, vramGb, old(Memory()), old(locks.mine))
      ensures r.Success? ==>
                WonMany(r.value.0, r.value.1, env(last), Targets(only), count, vramGb,
                        old(Memory()), old(locks.mine), Memory(), locks.mine)
      ensures forall i: nat :: i < last ==> NobodyServes(env(i), only, count, vramGb, old(Memory()), old(locks.mine))
      ensures r == Failure(TimedOut) ==> NobodyServes(env(last), only, count, vramGb, old(Memory()), old(locks.mine))
      ensures r.Success? ==>
                FirstToServe(r.value.0, env(last), only, count, vramGb, old(Memory()), old(locks.mine))
    {
      last := 0;
      RoundsBounded(timeout, 0);
      var capacity := HasVramCapacity(vramGb, count, only);
      if !capacity {
        return Failure(NoCapacity), 0;
      }
      var targets := Targets(only);
      while true
        invariant Memory() == old(Memory()) && locks.mine == old(locks.mine)
        invariant last < MaxRounds(timeout) && (last > 0 ==> (last - 1) as real < 2.0 * timeout)
        invariant WaitedMany(last, env, start + timeout, targets, count, vramGb, old(Memory()), old(locks.mine))
        decreases MaxRounds(timeout) - last
      {
        var got := GatherRound(env(last), targets, count, vramGb);
        if got.Some? {
          FirstWhenWon(got.value.0, got.value.1, env(last), only, count, vramGb,
                       old(Memory()), old(locks.mine), Memory(), locks.mine);
          NobodyWhileWaiting(last, env, start + timeout, only, count, vramGb, old(Memory()), old(locks.mine));
          return Success(got.value), last;
        }
        if env(last).now >= start + timeout {
          NobodyWhenNone(env(last), only, count, vramGb, old(Memory()), old(locks.mine));
          NobodyWhileWaiting(last, env, start + timeout, only, count, vramGb, old(Memory()), old(locks.mine));
          return Failure(TimedOut), last;
        }
        WaitedManyOneMore(last, env, start + timeout, targets, count, vramGb, old(Memory()), old(locks.mine));
        last := last + 1;
        RoundsBounded(timeout, last);
      }
    }

    // ---- pinned indices ----

    /** The node's pool contains every pinned index. */
    predicate Owns(node: string, indices: seq<int>) {
      node in allocators && forall i :: i in indices ==> i in IndexSet(allocators[node].pool)
    }

    /** Some pinned index is on none of the node's GPUs. */
    ghost predicate Lacks(node: string, indices: seq<int>) {
      node !in allocators || exists i :: i in indices && forall g :: g in allocators[node].pool ==> g.index != i
    }

    lemma OwnsOrLacks(node: string, indices: seq<int>)
      ensures Owns(node, indices) <==> !Lacks(node, indices)
    {
    }

    method FindOwner(indices: seq<int>) returns (k: nat)
      ensures k <= |nodes| && forall j :: 0 <= j < k ==> !Owns(nodes[j], indices)
      ensures k < |nodes| ==> Owns(nodes[k], indices)
    {
      k := 0;
      while k < |nodes| && !Owns(nodes[k], indices)
        invariant k <= |nodes| && forall j :: 0 <= j < k ==> !Owns(nodes[j], indices)
      {
        k := k + 1;
      }
    }

    /**
      One attempt at pinned indices, on the first node that owns them all. Because membership is
      checked first, an attempt never leaves a partial acquisition behind: it gets every index, in
      order, or changes nothing.
     */
    method PinAttempt(indices: seq<int>) returns (k: nat, got: Option<seq<GpuInfo>>)
      requires Valid()
      modifies Objects()
      ensures locks.others == old(locks.others)
      ensures k <= |nodes| && forall j :: 0 <= j < k ==> !Owns(nodes[j], indices)
      ensures got.Some? <==>
                && k < |nodes| && Owns(nodes[k], indices)
                && CanPin(nodes[k], IndexSet(allocators[nodes[k]].pool), old(Memory())[nodes[k]], old(locks.Busy()), indices)
      ensures k < |nodes| ==> Owns(nodes[k], indices)
      ensures got.None? ==> Memory() == old(Memory()) && locks.mine == old(locks.mine)
      ensures got.Some? ==>
                && Indices(got.value) == indices
                && Memory() == Minus(old(Memory()), nodes[k], IndexSet(got.value))
                && locks.mine == old(locks.mine) + KeysOn(nodes[k], got.value)
    {
      k := FindOwner(indices);
      got := None;
      if k < |nodes| {
        got := PinOn(nodes[k], indices);
      }
    }

    /** The pinned list on a node that owns it. */
    method PinOn(node: string, indices: seq<int>) returns (got: Option<seq<GpuInfo>>)
      requires Valid() && Owns(node, indices)
      modifies Objects()
      ensures locks.others == old(locks.others)
      ensures got.Some? <==> CanPin(node, IndexSet(allocators[node].pool), old(Memory())[node], old(locks.Busy()), indices)
      ensures got.None? ==> Memory() == old(Memory()) && locks.mine == old(locks.mine)
      ensures got.Some? ==>
                && Indices(got.value) == indices
                && Memory() == Minus(old(Memory()), node, IndexSet(got.value))
                && locks.mine == old(locks.mine) + KeysOn(node, got.value)
    {
      var alloc := allocators[node];
      assert Memory()[node] == alloc.available;
      OwnedNeverLeaks(node, IndexSet(alloc.pool), alloc.available, locks.Busy(), indices);
      var r := TryPin(node, alloc, locks, indices);
      got := if r.Pinned? then Some(r.gpus) else None;
      OnlyChanged(node);
    }

    // ---- the pinned wait loops ----

    ghost predicate PinServes(round: Round, node: string, indices: seq<int>, memory: map<string, set<int>>, mine: set<LockKey>)
      requires memory.Keys == allocators.Keys
    {
      node in allocators && CanPin(node, IndexSet(allocators[node].pool), memory[node], round.others + mine, indices)
    }

    /** A single pinned GPU whose lock a dead process seems to hold is tried again without looking at the clock. */
    ghost predicate Skips(dead: bool, round: Round, node: string, indices: seq<int>, memory: map<string, set<int>>, mine: set<LockKey>)
      requires memory.Keys == allocators.Keys
    {
      && dead && |indices| == 1 && node in allocators && indices[0] in memory[node]
      && LockKey(node, indices[0]) in round.others + mine
    }

    /** The first n rounds could not serve the request, and each skipped the clock or ended before the deadline. */
    ghost predicate PinWaited(n: nat, wait: Wait, node: string, indices: seq<int>, memory: map<string, set<int>>, mine: set<LockKey>)
      requires memory.Keys == allocators.Keys
    {
      forall i: nat :: i < n ==>
        && !PinServes(wait.env(i), node, indices, memory, mine)
        && (Skips(wait.dead(i), wait.env(i), node, indices, memory, mine) || wait.env(i).now < wait.deadline)
    }

    ghost predicate FirstOwner(k: nat, indices: seq<int>) {
      k < |nodes| && Owns(nodes[k], indices) && forall j :: 0 <= j < k ==> !Owns(nodes[j], indices)
    }

    /** How round last ends the wait: it serves the request, or it looks at the clock and is past the deadline. */
    ghost predicate PinRoundEnds(k: nat, wait: Wait, indices: seq<int>, memory: map<string, set<int>>, mine: set<LockKey>,
                                 last: nat, served: Option<string>)
      requires memory.Keys == allocators.Keys && k < |nodes|
    {
      if served.Some? then served.value == nodes[k] && PinServes(wait.env(last), nodes[k], indices, memory, mine)
      else
        && !PinServes(wait.env(last), nodes[k], indices, memory, mine)
        && !Skips(wait.dead(last), wait.env(last), nodes[k], indices, memory, mine)
        && wait.env(last).now >= wait.deadline
    }

    /** How a wait for pinned indices ends: nobody owns them all, or round last of the wait at their first owner decides. */
    ghost predicate PinEnded(wait: Wait, indices: seq<int>, memory: map<string, set<int>>, mine: set<LockKey>,
                             last: nat, served: Option<string>)
      requires memory.Keys == allocators.Keys
    {
      if forall n :: n in nodes ==> !Owns(n, indices) then served.None?
      else
        exists k: nat ::
          && FirstOwner(k, indices) && PinWaited(last, wait, nodes[k], indices, memory, mine)
          && PinRoundEnds(k, wait, indices, memory, mine, last, served)
    }

    method PinRound(round: Round, node: string, indices: seq<int>) returns (got: Option<seq<GpuInfo>>)
      requires Valid() && Owns(node, indices)
      modifies Objects()
      ensures locks.others == round.others
      ensures got.Some? <==> PinServes(round, node, indices, old(Memory()), old(locks.mine))
      ensures got.None? ==> Memory() == old(Memory()) && locks.mine == old(locks.mine)
      ensures got.Some? ==>
                && Indices(got.value) == indices
                && Memory() == Minus(old(Memory()), node, IndexSet(got.value))
                && locks.mine == old(locks.mine) + KeysOn(node, got.value)
    {
      locks.others := round.others;
      assert Memory() == old(Memory());
      got := PinOn(node, indices);
    }

    /**
      Both pinned wait loops. dead tells in which rounds the holder of the lock seems to be dead; only
      the single-GPU variant asks, so the list variant has it false throughout. The loop returns in
      the first round that can serve the request; it times out in the first round that ends past the
      deadline without having skipped the clock; and then nothing has changed. For any sequence of
      skipped rounds there is a longer one, so no bound on the number of rounds can be given: limit is
      a round in which the clock is past the deadline and is looked at.
     */
    method AcquirePinned(wait: Wait, indices: seq<int>, ghost limit: nat)
      returns (r: Result<(string, seq<GpuInfo>), PinError>, last: nat)
      requires Valid() && EndsBy(wait, limit)
      modifies Objects()
      ensures last <= limit
      ensures r == Failure(NotOwned) <==> forall n :: n in nodes ==> Lacks(n, indices)
      ensures r.Success? ==> !Lacks(r.value.0, indices)
      ensures PinEnded(wait, indices, old(Memory()), old(locks.mine), last, if r.Success? then Some(r.value.0) else None)
      ensures r.Failure? ==> Memory() == old(Memory()) && locks.mine == old(locks.mine)
      ensures r.Success? ==>
                var (node, got) := r.value;
                && node in allocators && Indices(got) == indices
                && Memory() == Minus(old(Memory()), node, IndexSet(got))
                && locks.mine == old(locks.mine) + KeysOn(node, got)
    {
      var k := FindOwner(indices);
      forall n ensures Owns(n, indices) <==> !Lacks(n, indices) {
        OwnsOrLacks(n, indices);
      }
      if k == |nodes| {
        return Failure(NotOwned), 0;
      }
      var got;
      got, last := PinWait(k, wait, indices, limit);
      EndedAt(k, wait, indices, old(Memory()), old(locks.mine), last, if got.Some? then Some(nodes[k]) else None);
      r := if got.Some? then Success((nodes[k], got.value)) else Failure(TimedOutPinning);
    }

    lemma EndedAt(k: nat, wait: Wait, indices: seq<int>, memory: map<string, set<int>>, mine: set<LockKey>,
                  last: nat, served: Option<string>)
      requires memory.Keys == allocators.Keys && FirstOwner(k, indices)
      requires PinWaited(last, wait, nodes[k], indices, memory, mine) && PinRoundEnds(k, wait, indices, memory, mine, last, served)
      ensures PinEnded(wait, indices, memory, mine, last, served) && exists n :: n in nodes && Owns(n, indices)
    {
      assert nodes[k] in nodes;
    }

    /** The wait at the node that owns the indices. */
    method PinWait(k: nat, wait: Wait, indices: seq<int>, ghost limit: nat) returns (got: Option<seq<GpuInfo>>, last: nat)
      requires Valid() && EndsBy(wait, limit) && k < |nodes| && Owns(nodes[k], indices)
      modifies Objects()
      ensures last <= limit && PinWaited(last, wait, nodes[k], indices, old(Memory()), old(locks.mine))
      ensures PinRoundEnds(k, wait, indices, old(Memory()), old(locks.mine), last, if got.Some? then Some(nodes[k]) else None)
      ensures got.None? ==> Memory() == old(Memory()) && locks.mine == old(locks.mine)
      ensures got.Some? ==>
                && Indices(got.value) == indices
                && Memory() == Minus(old(Memory()), nodes[k], IndexSet(got.value))
                && locks.mine == old(locks.mine) + KeysOn(nodes[k], got.value)
    {
      last := 0;
      while true
        invariant Memory() == old(Memory()) && locks.mine == old(locks.mine)
        invariant last <= limit && PinWaited(last, wait, nodes[k], indices, old(Memory()), old(locks.mine))
        decreases limit - last
      {
        got := PinRound(wait.env(last), nodes[k], indices);
        if got.Some? {
          return;
        }
        var skipped := SkipsClock(wait.dead(last), wait.env(last), nodes[k], indices);
        if !skipped && wait.env(last).now >= wait.deadline {
          return;
        }
        last := last + 1;
      }
    }

    method SkipsClock(dead: bool, round: Round, node: string, indices: seq<int>) returns (b: bool)
      requires node in allocators && locks.others == round.others
      ensures b == Skips(dead, round, node, indices, Memory(), locks.mine)
    {
      var busy := locks.others + locks.mine;
      b := dead && |indices| == 1 && indices[0] in allocators[node].available && LockKey(node, indices[0]) in busy;
    }

    // ---- release ----

    /** Memory after the GPUs of the slots went back to the nodes that have an allocator. */
    ghost function Plus(memory: map<string, set<int>>, slots: seq<NodeSlot>): map<string, set<int>> {
      map n | n in memory :: memory[n] + IndicesOn(n, slots)
    }

    /** Returns slots: for each, the in-memory entry first, then the lock. */
    method Release(slots: seq<NodeSlot>)
      requires Valid()
      modifies Objects()
      ensures locks.others == old(locks.others)
      ensures Memory() == Plus(old(Memory()), slots)
      ensures locks.mine == old(locks.mine) - Keys(slots)
    {
      assert Plus(Memory(), slots[..0]) == Memory() by {
        assert forall n :: n in allocators ==> Memory()[n] + IndicesOn(n, slots[..0]) == Memory()[n];
      }
      for i := 0 to |slots|
        invariant locks.others == old(locks.others)
        invariant Memory() == Plus(old(Memory()), slots[..i])
        invariant locks.mine == old(locks.mine) - Keys(slots[..i])
      {
        ReleaseOne(slots[i]);
        PlusOneMore(old(Memory()), slots, i);
      }
      assert slots[..|slots|] == slots;
    }

    method ReleaseOne(slot: NodeSlot)
      requires Valid()
      modifies Objects()
      ensures locks.others == old(locks.others)
      ensures Memory() == Plus(old(Memory()), [slot])
      ensures locks.mine == old(locks.mine) - {slot.Key()}
    {
      if slot.node in allocators {
        allocators[slot.node].Release(slot.gpu);
      }
      locks.Release(slot.Key());
      PlusOne(old(Memory()), slot);
      if slot.node in allocators {
        OnlyChanged(slot.node);
      }
    }

    lemma PlusOne(memory: map<string, set<int>>, slot: NodeSlot)
      ensures Plus(memory, [slot]) ==
              if slot.node in memory then memory[slot.node := memory[slot.node] + {slot.gpu.index}] else memory
    {
      forall n | n in memory
        ensures memory[n] + IndicesOn(n, [slot]) == if n == slot.node then memory[n] + {slot.gpu.index} else memory[n]
      {
        assert slot in [slot];
      }
    }

    lemma PlusOneMore(memory: map<string, set<int>>, slots: seq<NodeSlot>, i: nat)
      requires i < |slots|
      ensures Plus(Plus(memory, slots[..i]), [slots[i]]) == Plus(memory, slots[..i + 1])
      ensures Keys(slots[..i + 1]) == Keys(slots[..i]) + {slots[i].Key()}
    {
      assert slots[..i + 1] == slots[..i] + [slots[i]];
      forall n | n in memory
        ensures memory[n] + IndicesOn(n, slots[..i]) + IndicesOn(n, [slots[i]]) == memory[n] + IndicesOn(n, slots[..i + 1])
      {
        assert IndicesOn(n, slots[..i + 1]) == IndicesOn(n, slots[..i]) + IndicesOn(n, [slots[i]]);
      }
    }

    /** Releasing what an acquisition took brings memory and locks back to what they were before it. */
    lemma ReleaseUndoesAcquire(memory: map<string, set<int>>, mine: set<LockKey>, node: string, got: seq<GpuInfo>)
      requires node in memory && IndexSet(got) <= memory[node] && KeysOn(node, got) !! mine
      ensures Plus(Minus(memory, node, IndexSet(got)), SlotsOn(node, got)) == memory
      ensures mine + KeysOn(node, got) - Keys(SlotsOn(node, got)) == mine
    {
      var slots := SlotsOn(node, got);
      assert forall s :: s in slots ==> s.node == node;
      assert IndicesOn(node, slots) == IndexSet(got) && Keys(slots) == KeysOn(node, got) by {
        forall g | g in got
          ensures NodeSlot(node, g) in slots
        {
          var i :| 0 <= i < |got| && got[i] == g;
          assert slots[i] == NodeSlot(node, g);
        }
      }
      forall n | n in memory
        ensures Minus(memory, node, IndexSet(got))[n] + IndicesOn(n, slots) == memory[n]
      {
        if n != node {
          assert IndicesOn(n, slots) == {};
        }
      }
    }
  }

  /** The indices of the slots that belong to one node. */
  function IndicesOn(node: string, slots: seq<NodeSlot>): set<int> {
    set s | s in slots && s.node == node :: s.gpu.index
  }

  /** What the rest of the world looks like during one round of waiting, and the clock at its end. */
  datatype Round = Round(pending: string -> int, probed: set<LockKey>, others: set<LockKey>, now: real)

  datatype AcquireError = NoCapacity | TimedOut

  /** The world during a wait: its rounds, in which of them the lock's holder seems dead, and the deadline. */
  datatype Wait = Wait(env: nat -> Round, dead: nat -> bool, deadline: real)

  /** In round n the clock is past the deadline and is looked at. */
  ghost predicate EndsBy(wait: Wait, n: nat) {
    wait.env(n).now >= wait.deadline && !wait.dead(n)
  }

  datatype PinError = NotOwned | TimedOutPinning

  function Ceil(x: real): int {
    -((-x).Floor)
  }

  /** A retry loop that sleeps half a second per round runs at most this many rounds. */
  function MaxRounds(timeout: real): nat {
    if timeout <= 0.0 then 1 else Ceil(2.0 * timeout) + 1
  }

  lemma RoundsBounded(timeout: real, rounds: nat)
    requires rounds == 0 || (rounds - 1) as real / 2.0 < timeout
    ensures rounds < MaxRounds(timeout)
  {
    if rounds > 0 {
      assert (rounds - 1) as real < 2.0 * timeout <= Ceil(2.0 * timeout) as real;
    }
  }

  /** How many of the GPUs have an unheld lock file. */
  ghost function FreeLocks(node: string, gpus: seq<GpuInfo>, busy: set<LockKey>): nat {
    if gpus == [] then 0 else
    FreeLocks(node, gpus[..|gpus| - 1], busy) + if LockKey(node, gpus[|gpus| - 1].index) in busy then 0 else 1
  }

  ghost function Unheld(node: string, gpus: seq<GpuInfo>, busy: set<LockKey>): set<int> {
    set g | g in gpus && LockKey(node, g.index) !in busy :: g.index
  }

  lemma {:induction false} FreeLocksCounts(node: string, gpus: seq<GpuInfo>, busy: set<LockKey>)
    requires NoRepeats(gpus)
    ensures FreeLocks(node, gpus, busy) == |Unheld(node, gpus, busy)|
    decreases |gpus|
  {
    if gpus == [] {
      assert Unheld(node, gpus, busy) == {};
    } else {
      var init, last := gpus[..|gpus| - 1], gpus[|gpus| - 1];
      FreeLocksCounts(node, init, busy);
      assert gpus == init + [last];
      assert last.index !in Unheld(node, init, busy);
      assert Unheld(node, gpus, busy) ==
             if LockKey(node, last.index) in busy then Unheld(node, init, busy) else Unheld(node, init, busy) + {last.index};
    }
  }

  /** Probes each lock without waiting and gives it back at once: the lock table ends up as it was. */
  method TrueAvailable(node: string, gpus: seq<GpuInfo>, locks: FileLocks) returns (n: nat)
    modifies locks
    ensures n == FreeLocks(node, gpus, old(locks.Busy()))
    ensures locks.mine == old(locks.mine) && locks.others == old(locks.others)
  {
    n := 0;
    for i := 0 to |gpus|
      invariant n == FreeLocks(node, gpus[..i], old(locks.Busy()))
      invariant locks.mine == old(locks.mine) && locks.others == old(locks.others)
    {
      assert gpus[..i + 1][..i] == gpus[..i];
      var key := LockKey(node, gpus[i].index);
      var ok := locks.TryAcquire(key);
      if ok {
        locks.Release(key);
        n := n + 1;
      }
    }
    assert gpus[..|gpus|] == gpus;
  }

  /** Eligible GPUs of a node, counted over its whole pool. */
  method CountEligible(alloc: GpuAllocator, vramGb: real) returns (n: nat)
    requires alloc.Valid()
    ensures n == |alloc.CandidatesIn(IndexSet(alloc.pool), vramGb)|
  {
    n := 0;
    ghost var seen: set<GpuInfo> := {};
    for i := 0 to |alloc.pool|
      invariant n == |seen|
      invariant forall g :: g in seen <==> g in alloc.pool[..i] && Eligible(g, vramGb, alloc.headroomGb)
    {
      var g := alloc.pool[i];
      assert alloc.pool[..i + 1] == alloc.pool[..i] + [g];
      if Eligible(g, vramGb, alloc.headroomGb) {
        assert forall k :: 0 <= k < i ==> alloc.pool[k] != g;
        seen := seen + {g};
        n := n + 1;
      }
    }
    assert alloc.pool[..|alloc.pool|] == alloc.pool;
    assert seen == alloc.CandidatesIn(IndexSet(alloc.pool), vramGb);
  }

  function OnlyNode(nodes: seq<string>, node: string): (r: seq<string>)
    ensures forall n :: n in r <==> n == node && n in nodes
  {
    if nodes == [] then []
    else (if nodes[0] == node then [node] else []) + OnlyNode(nodes[1..], node)
  }
}
