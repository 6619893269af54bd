/**
  The per-node GPU allocator: which GPUs may serve a request, in which order, and the class that
  hands them out by updating its set of available indices.
 */
module Allocator {
  import opened Base

  datatype GpuInfo = GpuInfo(index: int, vramMb: int, numaNode: int)

  /** Strict allocation order: lowest NUMA node first, then lowest index. */
  predicate Before(a: GpuInfo, b: GpuInfo) {
    a.numaNode < b.numaNode || (a.numaNode == b.numaNode && a.index < b.index)
  }

  predicate BeforeOrSame(a: GpuInfo, b: GpuInfo) {
    a == b || Before(a, b)
  }

  predicate Eligible(g: GpuInfo, vramGb: real, headroomGb: real) {
    vramGb == 0.0 || g.vramMb as real / 1024.0 - headroomGb >= vramGb
  }

  /** In megabytes: no memory is asked for, or what is left after the headroom is enough. */
  predicate HasRoom(g: GpuInfo, vramGb: real, headroomGb: real) {
    vramGb == 0.0 || g.vramMb as real >= 1024.0 * (vramGb + headroomGb)
  }

  lemma EligibleIsRoom(g: GpuInfo, vramGb: real, headroomGb: real)
    ensures Eligible(g, vramGb, headroomGb) <==> HasRoom(g, vramGb, headroomGb)
  {
  }

  ghost predicate DistinctIndices(gpus: set<GpuInfo>) {
    forall a, b :: a in gpus && b in gpus && a.index == b.index ==> a == b
  }

  ghost predicate NoRepeats(gpus: seq<GpuInfo>) {
    forall a, b :: 0 <= a < b < |gpus| ==> gpus[a].index != gpus[b].index
  }

  ghost predicate IsLeast(g: GpuInfo, gpus: set<GpuInfo>) {
    g in gpus && forall x :: x in gpus ==> BeforeOrSame(g, x)
  }

  function IndexSet(gpus: seq<GpuInfo>): set<int> {
    set g | g in gpus :: g.index
  }

  /** A nonempty set of GPUs with distinct indices has a first GPU in allocation order. */
  lemma LeastExists(gpus: set<GpuInfo>)
    requires gpus != {} && DistinctIndices(gpus)
    ensures exists g :: IsLeast(g, gpus)
  {
    var x :| x in gpus;
    var rest := gpus - {x};
    if rest == {} {
      assert gpus == {x};
      assert IsLeast(x, gpus);
    } else {
      LeastExists(rest);
      var m :| IsLeast(m, rest);
      assert gpus == rest + {x};
      if Before(x, m) {
        assert IsLeast(x, gpus);
      } else {
        assert IsLeast(m, gpus);
      }
    }
  }

  ghost function Least(gpus: set<GpuInfo>): (g: GpuInfo)
    requires gpus != {} && DistinctIndices(gpus)
    ensures IsLeast(g, gpus)
  {
    LeastExists(gpus);
    var g :| IsLeast(g, gpus);
    g
  }

  lemma LeastUnique(g: GpuInfo, gpus: set<GpuInfo>)
    requires DistinctIndices(gpus) && IsLeast(g, gpus)
    ensures g == Least(gpus)
  {
    var m := Least(gpus);
    assert BeforeOrSame(g, m) && BeforeOrSame(m, g);
  }

  /** The GPUs of a set in the order in which repeated allocation hands them out. */
  ghost function Ranked(gpus: set<GpuInfo>): (r: seq<GpuInfo>)
    requires DistinctIndices(gpus)
    ensures |r| == |gpus|
    decreases |gpus|
  {
    if gpus == {} then [] else [Least(gpus)] + Ranked(gpus - {Least(gpus)})
  }

  /** Ranked lists exactly the given GPUs, each once, in strictly increasing allocation order. */
  lemma {:induction false} RankedIsSorted(gpus: set<GpuInfo>)
    requires DistinctIndices(gpus)
    ensures forall g :: g in Ranked(gpus) <==> g in gpus
    ensures forall i, j :: 0 <= i < j < |Ranked(gpus)| ==> Before(Ranked(gpus)[i], Ranked(gpus)[j])
    decreases |gpus|
  {
    if gpus != {} {
      var m := Least(gpus);
      var rest := gpus - {m};
      RankedIsSorted(rest);
      assert Ranked(gpus) == [m] + Ranked(rest);
      forall j | 0 <= j < |Ranked(rest)|
        ensures Before(m, Ranked(rest)[j])
      {
        assert Ranked(rest)[j] in Ranked(rest);
      }
    }
  }

  class GpuAllocator {
    const pool: seq<GpuInfo>
    const headroomGb: real
    var available: set<int>

    ghost predicate Valid() {
      NoRepeats(pool) && DistinctIndices(set g | g in pool)
    }

    constructor (gpus: seq<GpuInfo>, headroom: real)
      requires NoRepeats(gpus)
      ensures Valid() && pool == gpus && headroomGb == headroom
      ensures available == IndexSet(gpus)
    {
      pool := gpus;
      headroomGb := headroom;
      available := IndexSet(gpus);
    }

    function CandidatesIn(free: set<int>, vramGb: real): set<GpuInfo> {
      set g | g in pool && g.index in free && Eligible(g, vramGb, headroomGb)
    }

    function Candidates(vramGb: real): set<GpuInfo>
      reads this
    {
      CandidatesIn(available, vramGb)
    }

    /** Non-blocking allocation: the first candidate in allocation order leaves the available set. */
    method Allocate(vramGb: real) returns (chosen: Option<GpuInfo>)
      requires Valid()
      modifies this
      ensures chosen.None? <==> old(Candidates(vramGb)) == {}
      ensures chosen.None? ==> available == old(available)
      ensures chosen.Some? ==>
                && IsLeast(chosen.value, old(Candidates(vramGb)))
                && available == old(available) - {chosen.value.index}
                && Candidates(vramGb) == old(Candidates(vramGb)) - {chosen.value}
      ensures chosen.Some? ==> HasRoom(chosen.value, vramGb, headroomGb) && chosen.value.index in old(available)
      ensures forall g :: g in pool && g.index in old(available) && HasRoom(g, vramGb, headroomGb) ==>
                && chosen.Some? && chosen.value.numaNode <= g.numaNode
                && (chosen.value.numaNode == g.numaNode ==> chosen.value.index <= g.index)
    {
      chosen := None;
      for i := 0 to |pool|
        invariant available == old(available)
        invariant chosen.None? <==> forall k :: 0 <= k < i ==> pool[k] !in Candidates(vramGb)
        invariant chosen.Some? ==> chosen.value in Candidates(vramGb)
        invariant chosen.Some? ==>
                    forall k :: 0 <= k < i && pool[k] in Candidates(vramGb) ==> BeforeOrSame(chosen.value, pool[k])
      {
        var g := pool[i];
        if g.index in available && Eligible(g, vramGb, headroomGb) {
          assert g in Candidates(vramGb);
          if chosen.None? || Before(g, chosen.value) {
            chosen := Some(g);
          }
        }
      }
      if chosen.Some? {
        forall x | x in Candidates(vramGb)
          ensures BeforeOrSame(chosen.value, x)
        {
          var k :| 0 <= k < |pool| && pool[k] == x;
        }
        assert chosen.value in (set g | g in pool);
        available := available - {chosen.value.index};
      }
      forall g: GpuInfo ensures Eligible(g, vramGb, headroomGb) <==> HasRoom(g, vramGb, headroomGb) {
        EligibleIsRoom(g, vramGb, headroomGb);
      }
      assert forall g :: g in pool && g.index in old(available) && HasRoom(g, vramGb, headroomGb) ==> g in old(Candidates(vramGb));
    }

    /** Non-blocking allocation of one index; OutOfPool is the source's ValueError. */
    method AllocateSpecific(index: int) returns (r: Result<GpuInfo, SpecificError>)
      requires Valid()
      modifies this
      ensures r == Failure(OutOfPool) <==> index !in IndexSet(pool)
      ensures r == Failure(Taken) <==> index in IndexSet(pool) && index !in old(available)
      ensures r.Failure? ==> available == old(available)
      ensures r.Success? ==> r.value in pool && r.value.index == index && available == old(available) - {index}
    {
      for i := 0 to |pool|
        invariant available == old(available)
        invariant forall k :: 0 <= k < i ==> pool[k].index != index
      {
        if pool[i].index == index {
          assert pool[i] in pool;
          if index in available {
            available := available - {index};
            return Success(pool[i]);
          }
          return Failure(Taken);
        }
      }
      return Failure(OutOfPool);
    }

    method Release(g: GpuInfo)
      modifies this
      ensures available == old(available) + {g.index}
    {
      available := available + {g.index};
    }
  }

  datatype SpecificError = OutOfPool | Taken
}
