/**
  The allocator that lets a test choose its GPUs by index. It remembers what it handed out, so that
  nothing a test forgets to give back outlives the test.
 */
module ManualAllocator {
  import opened Base
  import opened Allocator
  import opened NodePool
  import opened Acquisition

  /** A slot and the executor group the test got for it; groups are told apart by identity. */
  datatype Held = Held(slot: NodeSlot, group: nat)

  /** Memory and locks are what they were before, less exactly the slots handed out, each once. */
  ghost predicate Accounts(memory0: map<string, set<int>>, mine0: set<LockKey>,
                           memory: map<string, set<int>>, mine: set<LockKey>, slots: set<NodeSlot>) {
    && memory.Keys == memory0.Keys
    && (forall n :: n in memory0 ==> memory[n] == memory0[n] - IndicesIn(n, slots))
    && mine == mine0 + KeysIn(slots) && KeysIn(slots) !! mine0
    && (forall s, t :: s in slots && t in slots && s.Key() == t.Key() ==> s == t)
    && (forall s :: s in slots ==> s.node in memory0 && s.gpu.index in memory0[s.node])
  }

  function IndicesIn(node: string, slots: set<NodeSlot>): set<int> {
    set s | s in slots && s.node == node :: s.gpu.index
  }

  function KeysIn(slots: set<NodeSlot>): set<LockKey> {
    set s | s in slots :: s.Key()
  }

  lemma TakeSets(slots: set<NodeSlot>, s: NodeSlot, n: string)
    ensures KeysIn(slots + {s}) == KeysIn(slots) + {s.Key()}
    ensures IndicesIn(n, slots + {s}) == IndicesIn(n, slots) + if n == s.node then {s.gpu.index} else {}
  {
  }

  lemma HasKey(slots: set<NodeSlot>, t: NodeSlot)
    requires t in slots
    ensures t.Key() in KeysIn(slots)
  {
  }

  /** A held slot's key is locked and its index taken; a slot that can be taken is a new one. */
  lemma TakeIsNew(memory0: map<string, set<int>>, mine0: set<LockKey>,
                  memory: map<string, set<int>>, mine: set<LockKey>, slots: set<NodeSlot>, s: NodeSlot)
    requires Accounts(memory0, mine0, memory, mine, slots) && s.Key() !in mine
    ensures s !in slots && forall t :: t in slots ==> t.Key() != s.Key()
  {
    forall t | t in slots ensures t.Key() != s.Key() {
      HasKey(slots, t);
    }
  }

  lemma Take(memory0: map<string, set<int>>, mine0: set<LockKey>,
             memory: map<string, set<int>>, mine: set<LockKey>, slots: set<NodeSlot>, s: NodeSlot)
    requires Accounts(memory0, mine0, memory, mine, slots)
    requires s.node in memory && s.gpu.index in memory[s.node] && s.Key() !in mine
    ensures Accounts(memory0, mine0, memory[s.node := memory[s.node] - {s.gpu.index}], mine + {s.Key()}, slots + {s})
  {
    TakeIsNew(memory0, mine0, memory, mine, slots, s);
    var after := memory[s.node := memory[s.node] - {s.gpu.index}];
    TakeSets(slots, s, s.node);
    forall n | n in memory0 ensures after[n] == memory0[n] - IndicesIn(n, slots + {s}) {
      TakeSets(slots, s, n);
      assert memory[n] == memory0[n] - IndicesIn(n, slots);
    }
  }

  lemma Give(memory0: map<string, set<int>>, mine0: set<LockKey>,
             memory: map<string, set<int>>, mine: set<LockKey>, slots: set<NodeSlot>, s: NodeSlot)
    requires Accounts(memory0, mine0, memory, mine, slots) && s in slots
    ensures s.node in memory
    ensures Accounts(memory0, mine0, memory[s.node := memory[s.node] + {s.gpu.index}], mine - {s.Key()}, slots - {s})
  {
    var rest := slots - {s};
    assert s.Key() in KeysIn(slots);
    GiveKeys(slots, s);
    forall n | n in memory0
      ensures IndicesIn(n, rest) == IndicesIn(n, slots) - if n == s.node then {s.gpu.index} else {}
    {
      GiveIndices(slots, s, n);
    }
  }

  lemma GiveKeys(slots: set<NodeSlot>, s: NodeSlot)
    requires s in slots && forall a, b :: a in slots && b in slots && a.Key() == b.Key() ==> a == b
    ensures KeysIn(slots - {s}) == KeysIn(slots) - {s.Key()}
  {
  }

  lemma GiveIndices(slots: set<NodeSlot>, s: NodeSlot, n: string)
    requires s in slots && forall a, b :: a in slots && b in slots && a.Key() == b.Key() ==> a == b
    ensures IndicesIn(n, slots - {s}) == IndicesIn(n, slots) - if n == s.node then {s.gpu.index} else {}
  {
    forall t | t in slots && t != s && t.node == n ensures n == s.node ==> t.gpu.index != s.gpu.index {
      assert n == s.node && t.gpu.index == s.gpu.index ==> t.Key() == s.Key();
    }
  }

  lemma AllGivenBack(memory0: map<string, set<int>>, mine0: set<LockKey>, memory: map<string, set<int>>, mine: set<LockKey>)
    requires Accounts(memory0, mine0, memory, mine, {})
    ensures memory == memory0 && mine == mine0
  {
    assert KeysIn({}) == {};
    forall n | n in memory0 ensures memory[n] == memory0[n] {
      assert IndicesIn(n, {}) == {};
    }
    assert forall n :: n in memory <==> n in memory0;
  }

  /** A pinned GPU that is served is free in memory and unlocked. */
  lemma ServedOne(pool: Pool, wait: Wait, index: int, memory: map<string, set<int>>, mine: set<LockKey>, last: nat, node: string)
    requires memory.Keys == pool.allocators.Keys
    requires pool.PinEnded(wait, [index], memory, mine, last, Some(node))
    ensures node in memory && index in memory[node] && LockKey(node, index) !in mine
  {
    var k: nat :| pool.FirstOwner(k, [index]) && pool.PinRoundEnds(k, wait, [index], memory, mine, last, Some(node));
    assert [index][0] == index;
  }

  /** Waits for one pinned GPU. */
  method PinSingle(pool: Pool, index: int, wait: Wait, ghost limit: nat) returns (slot: Option<NodeSlot>, last: nat)
    requires pool.Valid() && EndsBy(wait, limit)
    modifies pool.Objects()
    ensures pool.PinEnded(wait, [index], old(pool.Memory()), old(pool.locks.mine), last,
                          if slot.Some? then Some(slot.value.node) else None)
    ensures slot.None? ==> pool.Memory() == old(pool.Memory()) && pool.locks.mine == old(pool.locks.mine)
    ensures slot.Some? ==>
              var s := slot.value;
              && s.gpu.index == index && s.node in pool.allocators && index in old(pool.Memory())[s.node]
              && s.Key() !in old(pool.locks.mine)
              && pool.Memory() == old(pool.Memory())[s.node := old(pool.Memory())[s.node] - {index}]
              && pool.locks.mine == old(pool.locks.mine) + {s.Key()}
  {
    var r;
    r, last := pool.AcquirePinned(wait, [index], limit);
    if r.Failure? {
      return None, last;
    }
    var (node, got) := r.value;
    OnlyGpu(node, got, index);
    ServedOne(pool, wait, index, old(pool.Memory()), old(pool.locks.mine), last, node);
    return Some(NodeSlot(node, got[0])), last;
  }

  lemma OnlyGpu(node: string, got: seq<GpuInfo>, index: int)
    requires Indices(got) == [index]
    ensures |got| == 1 && got[0].index == index && IndexSet(got) == {index} && KeysOn(node, got) == {LockKey(node, index)}
  {
    assert Indices(got)[0] == got[0].index;
    assert got == [got[0]];
  }

  function SlotsOf(held: seq<Held>): set<NodeSlot> {
    set h | h in held :: h.slot
  }

  ghost predicate DistinctHeld(held: seq<Held>, nextGroup: nat) {
    && (forall i :: 0 <= i < |held| ==> held[i].group < nextGroup)
    && (forall i, j :: 0 <= i < j < |held| ==> held[i].group != held[j].group && held[i].slot != held[j].slot)
  }

  lemma HoldOneMore(held: seq<Held>, nextGroup: nat, s: NodeSlot)
    requires DistinctHeld(held, nextGroup) && s !in SlotsOf(held)
    ensures DistinctHeld(held + [Held(s, nextGroup)], nextGroup + 1)
    ensures SlotsOf(held + [Held(s, nextGroup)]) == SlotsOf(held) + {s}
  {
    assert forall i :: 0 <= i < |held| ==> held[i].slot in SlotsOf(held) by {
      forall i | 0 <= i < |held| ensures held[i].slot in SlotsOf(held) {
        assert held[i] in held;
      }
    }
  }

  lemma HoldTaken(memory0: map<string, set<int>>, mine0: set<LockKey>, memory: map<string, set<int>>, mine: set<LockKey>,
                  held: seq<Held>, nextGroup: nat, s: NodeSlot)
    requires DistinctHeld(held, nextGroup) && Accounts(memory0, mine0, memory, mine, SlotsOf(held))
    requires s.node in memory && s.gpu.index in memory[s.node] && s.Key() !in mine
    ensures DistinctHeld(held + [Held(s, nextGroup)], nextGroup + 1)
    ensures Accounts(memory0, mine0, memory[s.node := memory[s.node] - {s.gpu.index}], mine + {s.Key()},
                     SlotsOf(held + [Held(s, nextGroup)]))
  {
    TakeIsNew(memory0, mine0, memory, mine, SlotsOf(held), s);
    Take(memory0, mine0, memory, mine, SlotsOf(held), s);
    HoldOneMore(held, nextGroup, s);
  }

  lemma HoldOneLess(held: seq<Held>, nextGroup: nat, i: nat)
    requires DistinctHeld(held, nextGroup) && i < |held|
    ensures DistinctHeld(held[..i] + held[i + 1..], nextGroup)
    ensures SlotsOf(held[..i] + held[i + 1..]) == SlotsOf(held) - {held[i].slot}
    ensures held[i].slot in SlotsOf(held)
  {
    var rest := held[..i] + held[i + 1..];
    assert held[i] in held;
    assert forall k :: 0 <= k < |rest| ==> rest[k] == held[if k < i then k else k + 1];
    forall h | h in held && h != held[i] ensures h in rest && h.slot != held[i].slot {
      var k :| 0 <= k < |held| && held[k] == h;
      assert rest[if k < i then k else k - 1] == h;
    }
    assert forall h :: h in rest ==> h in held && h != held[i];
  }

  class ManualGpuAllocator {
    const pool: Pool
    const noGpu: bool
    var held: seq<Held>
    var nextGroup: nat

    /** Nothing is lost since the state (memory0, mine0) in which nothing was held. */
    ghost predicate Balanced(memory0: map<string, set<int>>, mine0: set<LockKey>)
      reads this, pool.Objects()
    {
      && pool.Valid() && this !in pool.Objects() && DistinctHeld(held, nextGroup)
      && Accounts(memory0, mine0, pool.Memory(), pool.locks.mine, SlotsOf(held))
    }

    constructor (pool: Pool, noGpu: bool)
      requires pool.Valid()
      ensures this.pool == pool && this.noGpu == noGpu && held == []
      ensures Balanced(pool.Memory(), pool.locks.mine)
    {
      this.pool := pool;
      this.noGpu := noGpu;
      held, nextGroup := [], 0;
    }

    /** Waits for one GPU by index and hands it out; None is a skipped test, when it cannot be had in time. */
    method Acquire(index: int, wait: Wait, ghost limit: nat, ghost memory0: map<string, set<int>>, ghost mine0: set<LockKey>)
      returns (group: Option<nat>, last: nat)
      requires Balanced(memory0, mine0) && EndsBy(wait, limit)
      modifies this, pool.Objects()
      ensures Balanced(memory0, mine0)
      ensures noGpu ==> group.Some?
      ensures noGpu || group.None? ==> held == old(held)
      ensures !noGpu && group.Some? ==>
                exists s: NodeSlot :: s.gpu.index == index && held == old(held) + [Held(s, group.value)]
      ensures !noGpu ==>
                pool.PinEnded(wait, [index], old(pool.Memory()), old(pool.locks.mine), last,
                              if group.Some? then Some(held[|held| - 1].slot.node) else None)
    {
      if noGpu {
        group, nextGroup, last := Some(nextGroup), nextGroup + 1, 0;
        return;
      }
      var slot;
      slot, last := PinSingle(pool, index, wait, limit);
      group := None;
      if slot.Some? {
        group := Some(nextGroup);
        Hold(slot.value, old(pool.Memory()), old(pool.locks.mine), memory0, mine0);
      }
    }

    /** Remembers a slot that was just taken from memory and locked. */
    method Hold(slot: NodeSlot, ghost memory: map<string, set<int>>, ghost mine: set<LockKey>,
                ghost memory0: map<string, set<int>>, ghost mine0: set<LockKey>)
      requires pool.Valid() && this !in pool.Objects() && DistinctHeld(held, nextGroup)
      requires Accounts(memory0, mine0, memory, mine, SlotsOf(held))
      requires slot.node in memory && slot.gpu.index in memory[slot.node] && slot.Key() !in mine
      requires pool.Memory() == memory[slot.node := memory[slot.node] - {slot.gpu.index}]
      requires pool.locks.mine == mine + {slot.Key()}
      modifies this
      ensures Balanced(memory0, mine0) && held == old(held) + [Held(slot, old(nextGroup))]
    {
      HoldTaken(memory0, mine0, memory, mine, held, nextGroup, slot);
      held, nextGroup := held + [Held(slot, nextGroup)], nextGroup + 1;
    }

    /** Gives back entry i. */
    method GiveBack(i: nat, ghost memory0: map<string, set<int>>, ghost mine0: set<LockKey>)
      requires Balanced(memory0, mine0) && i < |held|
      modifies this, pool.Objects()
      ensures Balanced(memory0, mine0) && held == old(held)[..i] + old(held)[i + 1..]
    {
      ghost var memory, mine := pool.Memory(), pool.locks.mine;
      var slot := held[i].slot;
      HoldOneLess(held, nextGroup, i);
      Give(memory0, mine0, memory, mine, SlotsOf(held), slot);
      pool.ReleaseOne(slot);
      pool.PlusOne(memory, slot);
      held := held[..i] + held[i + 1..];
    }

    /** Gives back the GPU of a group; a group that is not held (given back already) changes nothing. */
    method Release(group: nat, ghost memory0: map<string, set<int>>, ghost mine0: set<LockKey>)
      requires Balanced(memory0, mine0)
      modifies this, pool.Objects()
      ensures Balanced(memory0, mine0)
      ensures noGpu ==> held == old(held)
      ensures !noGpu ==>
                && (forall h :: h in held <==> h in old(held) && h.group != group)
                && ((forall h :: h in old(held) ==> h.group != group) ==>
                      held == old(held) && pool.Memory() == old(pool.Memory()) && pool.locks.mine == old(pool.locks.mine))
    {
      if noGpu {
        return;
      }
      var i := 0;
      while i < |held|
        invariant i <= |held| && forall k :: 0 <= k < i ==> held[k].group != group
      {
        if held[i].group == group {
          RemainingGroups(held, nextGroup, i);
          assert held[i] in held;
          GiveBack(i, memory0, mine0);
          return;
        }
        i := i + 1;
      }
    }

    /** End of the test: whatever is still held goes back, and leaked tells whether the test fails for it. */
    method Cleanup(ghost memory0: map<string, set<int>>, ghost mine0: set<LockKey>) returns (leaked: seq<Held>)
      requires Balanced(memory0, mine0)
      modifies this, pool.Objects()
      ensures leaked == old(held) && held == []
      ensures Balanced(memory0, mine0) && pool.Memory() == memory0 && pool.locks.mine == mine0
    {
      leaked := held;
      while held != []
        invariant Balanced(memory0, mine0)
        decreases |held|
      {
        GiveBack(0, memory0, mine0);
      }
      assert SlotsOf([]) == {};
      AllGivenBack(memory0, mine0, pool.Memory(), pool.locks.mine);
    }
  }

  lemma RemainingGroups(held: seq<Held>, nextGroup: nat, i: nat)
    requires DistinctHeld(held, nextGroup) && i < |held|
    ensures forall h :: h in held[..i] + held[i + 1..] <==> h in held && h.group != held[i].group
  {
    var rest := held[..i] + held[i + 1..];
    assert forall k :: 0 <= k < |rest| ==> rest[k] == held[if k < i then k else k + 1];
    forall h | h in held && h.group != held[i].group ensures h in rest {
      var k :| 0 <= k < |held| && held[k] == h;
      assert rest[if k < i then k else k - 1] == h;
    }
  }
}
