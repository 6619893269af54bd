/**
  Collection-time scheduling: every multi-resource test gets a worker group of its own, and the tests
  are sorted by how much of the machine they need.
 */
module Scheduler {
  import opened Base
  import opened Text

  const ALL_WEIGHT := 1_000_000

  /** A marker is missing, present without arguments, or present with a first argument. */
  datatype Mark<T> = Absent | Bare | With(arg: T)

  datatype GpuCount = All | Number(n: int)

  datatype Pinned = One(index: int) | List(indices: seq<int>)

  datatype Item = Item(
    id: string,
    gpuIndices: Mark<Pinned>,
    gpuCount: Mark<GpuCount>,
    multiGpu: bool,
    hwMultiGpu: bool,
    multinode: bool,
    group: Option<string>)

  function MultiGpuCount(item: Item): nat {
    if item.gpuCount.With? && item.gpuCount.arg.All? then ALL_WEIGHT
    else if item.gpuCount.With? && item.gpuCount.arg.n > 1 then item.gpuCount.arg.n
    else if item.hwMultiGpu then 2
    else 0
  }

  function GpuIndicesCount(item: Item): nat {
    if !item.gpuIndices.With? then 0
    else match item.gpuIndices.arg
      case One(_) => 1
      case List(indices) => |indices|
  }

  // ---- sort keys ----

  datatype Policy = Most | Least

  datatype Key = Key(tier: int, sub: int)

  predicate Le(a: Key, b: Key) {
    a.tier < b.tier || (a.tier == b.tier && a.sub <= b.sub)
  }

  function KeyMost(item: Item): Key {
    if item.multinode then Key(0, 0)
    else
      var k: int := GpuIndicesCount(item);
      if k > 0 then Key(1, -k)
      else
        var n: int := MultiGpuCount(item);
        if n > 0 then Key(1, -n) else Key(2, 0)
  }

  function KeyLeast(item: Item): Key {
    if item.multinode then Key(2, 0)
    else
      var k: int := GpuIndicesCount(item);
      if k > 0 then Key(1, k)
      else
        var n: int := MultiGpuCount(item);
        if n > 0 then Key(1, n) else Key(0, 0)
  }

  function KeyOf(policy: Policy, item: Item): Key {
    match policy
    case Most => KeyMost(item)
    case Least => KeyLeast(item)
  }

  /** The two keys order all tests in exactly opposite ways. */
  lemma KeysAreOpposite(a: Item, b: Item)
    ensures Le(KeyMost(a), KeyMost(b)) <==> Le(KeyLeast(b), KeyLeast(a))
  {
  }

  // ---- stable sorting ----

  ghost predicate Sorted(policy: Policy, s: seq<Item>) {
    forall i, j :: 0 <= i < j < |s| ==> Le(KeyOf(policy, s[i]), KeyOf(policy, s[j]))
  }

  /** The tests with one key, in the order of the list. */
  ghost function OfKey(policy: Policy, k: Key, s: seq<Item>): seq<Item> {
    if s == [] then []
    else (if KeyOf(policy, s[0]) == k then [s[0]] else []) + OfKey(policy, k, s[1..])
  }

  /** r lists the tests of s in key order, and tests with equal keys as they were. */
  ghost predicate IsStableSort(policy: Policy, s: seq<Item>, r: seq<Item>) {
    Sorted(policy, r) && forall k :: OfKey(policy, k, r) == OfKey(policy, k, s)
  }

  function Insert(policy: Policy, x: Item, s: seq<Item>): seq<Item> {
    if s == [] || Le(KeyOf(policy, x), KeyOf(policy, s[0])) then [x] + s
    else [s[0]] + Insert(policy, x, s[1..])
  }

  /** list.sort with the policy's key */
  function StableSort(policy: Policy, s: seq<Item>): seq<Item> {
    if s == [] then [] else Insert(policy, s[0], StableSort(policy, s[1..]))
  }

  lemma OfKeyCons(policy: Policy, k: Key, x: Item, s: seq<Item>)
    ensures OfKey(policy, k, [x] + s) == (if KeyOf(policy, x) == k then [x] else []) + OfKey(policy, k, s)
  {
    assert ([x] + s)[1..] == s;
  }

  lemma {:induction false} InsertOfKey(policy: Policy, x: Item, s: seq<Item>, k: Key)
    ensures OfKey(policy, k, Insert(policy, x, s)) == OfKey(policy, k, [x] + s)
  {
    OfKeyCons(policy, k, x, s);
    if s != [] && !Le(KeyOf(policy, x), KeyOf(policy, s[0])) {
      InsertOfKey(policy, x, s[1..], k);
      OfKeyCons(policy, k, x, s[1..]);
      OfKeyCons(policy, k, s[0], Insert(policy, x, s[1..]));
    }
  }

  lemma {:induction false} InsertElements(policy: Policy, x: Item, s: seq<Item>)
    ensures multiset(Insert(policy, x, s)) == multiset(s) + multiset{x}
  {
    if s == [] || Le(KeyOf(policy, x), KeyOf(policy, s[0])) {
      assert multiset([x] + s) == multiset{x} + multiset(s);
    } else {
      InsertElements(policy, x, s[1..]);
      assert s == [s[0]] + s[1..];
    }
  }

  lemma SortedCons(policy: Policy, x: Item, s: seq<Item>)
    requires Sorted(policy, s)
    requires forall y :: y in s ==> Le(KeyOf(policy, x), KeyOf(policy, y))
    ensures Sorted(policy, [x] + s)
  {
  }

  lemma SortedHead(policy: Policy, s: seq<Item>, y: Item)
    requires Sorted(policy, s) && y in s
    ensures Le(KeyOf(policy, s[0]), KeyOf(policy, y))
  {
    var i :| 0 <= i < |s| && s[i] == y;
  }

  lemma {:induction false} InsertIsSorted(policy: Policy, x: Item, s: seq<Item>)
    requires Sorted(policy, s)
    ensures Sorted(policy, Insert(policy, x, s))
  {
    if s == [] {
    } else if Le(KeyOf(policy, x), KeyOf(policy, s[0])) {
      forall y | y in s ensures Le(KeyOf(policy, x), KeyOf(policy, y)) {
        SortedHead(policy, s, y);
      }
      SortedCons(policy, x, s);
    } else {
      var r := Insert(policy, x, s[1..]);
      InsertIsSorted(policy, x, s[1..]);
      InsertElements(policy, x, s[1..]);
      forall y | y in r ensures Le(KeyOf(policy, s[0]), KeyOf(policy, y)) {
        assert y in multiset(r);
        if y != x {
          assert y in s[1..];
          SortedHead(policy, s, y);
        }
      }
      SortedCons(policy, s[0], r);
    }
  }

  lemma {:induction false} StableSortIsStable(policy: Policy, s: seq<Item>)
    ensures IsStableSort(policy, s, StableSort(policy, s))
    ensures multiset(StableSort(policy, s)) == multiset(s)
  {
    if s != [] {
      var r := StableSort(policy, s[1..]);
      StableSortIsStable(policy, s[1..]);
      InsertIsSorted(policy, s[0], r);
      InsertElements(policy, s[0], r);
      assert s == [s[0]] + s[1..];
      forall k ensures OfKey(policy, k, StableSort(policy, s)) == OfKey(policy, k, s) {
        InsertOfKey(policy, s[0], r, k);
        OfKeyCons(policy, k, s[0], r);
        assert OfKey(policy, k, r) == OfKey(policy, k, s[1..]);
      }
    }
  }

  // ---- there is only one stable sort ----

  lemma {:induction false} InOfKey(policy: Policy, s: seq<Item>, x: Item)
    requires x in s
    ensures OfKey(policy, KeyOf(policy, x), s) != []
  {
    if x != s[0] {
      InOfKey(policy, s[1..], x);
    }
  }

  lemma {:induction false} OfKeyIn(policy: Policy, k: Key, s: seq<Item>) returns (x: Item)
    requires OfKey(policy, k, s) != []
    ensures x in s && KeyOf(policy, x) == k
  {
    if KeyOf(policy, s[0]) == k {
      x := s[0];
    } else {
      x := OfKeyIn(policy, k, s[1..]);
    }
  }

  ghost predicate SameClasses(policy: Policy, a: seq<Item>, b: seq<Item>) {
    forall k :: OfKey(policy, k, a) == OfKey(policy, k, b)
  }

  lemma FirstKeyIsLeast(policy: Policy, a: seq<Item>, b: seq<Item>)
    requires Sorted(policy, a) && SameClasses(policy, a, b) && b != []
    ensures a != [] && Le(KeyOf(policy, a[0]), KeyOf(policy, b[0]))
  {
    var k := KeyOf(policy, b[0]);
    InOfKey(policy, b, b[0]);
    assert OfKey(policy, k, a) == OfKey(policy, k, b);
    var x := OfKeyIn(policy, k, a);
    SortedHead(policy, a, x);
  }

  lemma OfKeyTail(policy: Policy, k: Key, s: seq<Item>)
    requires s != []
    ensures OfKey(policy, k, s) == (if KeyOf(policy, s[0]) == k then [s[0]] else []) + OfKey(policy, k, s[1..])
    ensures OfKey(policy, k, s[1..]) == OfKey(policy, k, s)[if KeyOf(policy, s[0]) == k then 1 else 0..]
  {
  }

  lemma SameHead(policy: Policy, a: seq<Item>, b: seq<Item>)
    requires Sorted(policy, a) && Sorted(policy, b) && SameClasses(policy, a, b) && a != [] && b != []
    ensures a[0] == b[0] && SameClasses(policy, a[1..], b[1..])
  {
    FirstKeyIsLeast(policy, a, b);
    FirstKeyIsLeast(policy, b, a);
    var k := KeyOf(policy, a[0]);
    assert OfKey(policy, k, a) == OfKey(policy, k, b);
    assert OfKey(policy, k, a)[0] == a[0] && OfKey(policy, k, b)[0] == b[0];
    forall k ensures OfKey(policy, k, a[1..]) == OfKey(policy, k, b[1..]) {
      assert OfKey(policy, k, a) == OfKey(policy, k, b);
      OfKeyTail(policy, k, a);
      OfKeyTail(policy, k, b);
    }
  }

  lemma {:induction false} SortedIsUnique(policy: Policy, a: seq<Item>, b: seq<Item>)
    requires Sorted(policy, a) && Sorted(policy, b) && SameClasses(policy, a, b)
    ensures a == b
    decreases |a|
  {
    if a == [] {
      if b != [] {
        FirstKeyIsLeast(policy, a, b);
      }
    } else {
      FirstKeyIsLeast(policy, b, a);
      SameHead(policy, a, b);
      SortedIsUnique(policy, a[1..], b[1..]);
      assert a == [a[0]] + a[1..] && b == [b[0]] + b[1..];
    }
  }

  // ---- the two policies are duals ----

  function Reversed(s: seq<Item>): seq<Item> {
    if s == [] then [] else Reversed(s[1..]) + [s[0]]
  }

  lemma {:induction false} ReversedAt(s: seq<Item>)
    ensures |Reversed(s)| == |s| && forall i :: 0 <= i < |s| ==> Reversed(s)[i] == s[|s| - 1 - i]
  {
    if s != [] {
      ReversedAt(s[1..]);
    }
  }

  lemma {:induction false} OfKeyAppend(policy: Policy, k: Key, a: seq<Item>, b: seq<Item>)
    ensures OfKey(policy, k, a + b) == OfKey(policy, k, a) + OfKey(policy, k, b)
  {
    if a == [] {
      assert a + b == b;
    } else {
      assert (a + b)[1..] == a[1..] + b;
      OfKeyAppend(policy, k, a[1..], b);
    }
  }

  lemma {:induction false} OfKeyReversed(policy: Policy, k: Key, s: seq<Item>)
    ensures OfKey(policy, k, Reversed(s)) == Reversed(OfKey(policy, k, s))
  {
    if s != [] {
      OfKeyReversed(policy, k, s[1..]);
      OfKeyAppend(policy, k, Reversed(s[1..]), [s[0]]);
      OfKeyCons(policy, k, s[0], []);
      assert [s[0]] + [] == [s[0]];
      var tail := OfKey(policy, k, s[1..]);
      if KeyOf(policy, s[0]) == k {
        assert OfKey(policy, k, s) == [s[0]] + tail;
        assert ([s[0]] + tail)[1..] == tail;
      } else {
        assert OfKey(policy, k, s) == tail;
      }
    }
  }

  lemma ReversedTwice(s: seq<Item>)
    ensures Reversed(Reversed(s)) == s
  {
    ReversedAt(s);
    ReversedAt(Reversed(s));
  }

  /** The same tests share a key under either policy. */
  function Opposite(k: Key): Key {
    Key(2 - k.tier, -k.sub)
  }

  lemma {:induction false} OfKeyOpposite(k: Key, s: seq<Item>)
    ensures OfKey(Most, Opposite(k), s) == OfKey(Least, k, s)
  {
    if s != [] {
      OfKeyOpposite(k, s[1..]);
    }
  }

  lemma ReversedMostIsSorted(s: seq<Item>)
    requires Sorted(Most, s)
    ensures Sorted(Least, Reversed(s))
  {
    ReversedAt(s);
    var r := Reversed(s);
    forall i, j | 0 <= i < j < |r| ensures Le(KeyOf(Least, r[i]), KeyOf(Least, r[j])) {
      KeysAreOpposite(s[|s| - 1 - j], s[|s| - 1 - i]);
    }
  }

  lemma ReversedMostHasClasses(s: seq<Item>, k: Key)
    ensures OfKey(Least, k, Reversed(StableSort(Most, Reversed(s)))) == OfKey(Least, k, s)
  {
    var m := StableSort(Most, Reversed(s));
    StableSortIsStable(Most, Reversed(s));
    var o := Opposite(k);
    assert OfKey(Most, o, m) == OfKey(Most, o, Reversed(s));
    OfKeyOpposite(k, Reversed(m));
    OfKeyReversed(Most, o, m);
    OfKeyReversed(Most, o, s);
    ReversedTwice(OfKey(Most, o, s));
    OfKeyOpposite(k, s);
  }

  /** resource-least is resource-most read backwards: its order is the reverse of sorting the reversed list. */
  lemma PoliciesAreDual(s: seq<Item>)
    ensures StableSort(Least, s) == Reversed(StableSort(Most, Reversed(s)))
  {
    var l, r := StableSort(Least, s), Reversed(StableSort(Most, Reversed(s)));
    StableSortIsStable(Least, s);
    StableSortIsStable(Most, Reversed(s));
    ReversedMostIsSorted(StableSort(Most, Reversed(s)));
    forall k ensures OfKey(Least, k, l) == OfKey(Least, k, r) {
      ReversedMostHasClasses(s, k);
    }
    SortedIsUnique(Least, l, r);
  }

  // ---- what the order means for the tests ----

  /** How many GPUs of one node a test is after; 0 for a single-GPU test. */
  function Need(item: Item): nat {
    if GpuIndicesCount(item) > 0 then GpuIndicesCount(item) else MultiGpuCount(item)
  }

  /** Need, read off the markers. */
  lemma NeedInMarkers(item: Item)
    ensures item.gpuIndices.With? && item.gpuIndices.arg.List? && item.gpuIndices.arg.indices != [] ==>
              Need(item) == |item.gpuIndices.arg.indices|
    ensures item.gpuIndices.With? && item.gpuIndices.arg.One? ==> Need(item) == 1
    ensures !item.gpuIndices.With? || item.gpuIndices.arg == List([]) ==>
              && Need(item) == MultiGpuCount(item)
              && (item.gpuCount == With(All) ==> Need(item) == 1000000)
              && (forall n :: n > 1 && item.gpuCount == With(Number(n)) ==> Need(item) == n)
              && (item.gpuCount != With(All) && (forall n :: n > 1 ==> item.gpuCount != With(Number(n))) ==>
                    Need(item) == if item.hwMultiGpu then 2 else 0)
  {
    if item.gpuCount.With? && item.gpuCount.arg.Number? {
      assert item.gpuCount == With(Number(item.gpuCount.arg.n));
    }
  }

  /** Heaviest first: multinode tests, then the others by falling need, single-GPU tests last. */
  ghost predicate HeaviestFirst(r: seq<Item>) {
    forall i, j :: 0 <= i < j < |r| ==>
      && (r[j].multinode ==> r[i].multinode)
      && (!r[i].multinode ==> Need(r[i]) >= Need(r[j]))
  }

  /** Lightest first: single-GPU tests, then the others by rising need, multinode tests last. */
  ghost predicate LightestFirst(r: seq<Item>) {
    forall i, j :: 0 <= i < j < |r| ==>
      && (r[i].multinode ==> r[j].multinode)
      && (!r[j].multinode ==> Need(r[i]) <= Need(r[j]))
  }

  lemma MostInNeeds(a: Item, b: Item)
    requires Le(KeyMost(a), KeyMost(b))
    ensures (b.multinode ==> a.multinode) && (!a.multinode ==> Need(a) >= Need(b))
  {
  }

  lemma LeastInNeeds(a: Item, b: Item)
    requires Le(KeyLeast(a), KeyLeast(b))
    ensures (a.multinode ==> b.multinode) && (!b.multinode ==> Need(a) <= Need(b))
  {
  }

  /** resource-most runs the heaviest tests first, resource-least the lightest. */
  lemma PoliciesOrderByNeed(s: seq<Item>)
    ensures HeaviestFirst(StableSort(Most, s)) && LightestFirst(StableSort(Least, s))
  {
    StableSortIsStable(Most, s);
    StableSortIsStable(Least, s);
    var m, l := StableSort(Most, s), StableSort(Least, s);
    forall i, j | 0 <= i < j < |m|
      ensures (m[j].multinode ==> m[i].multinode) && (!m[i].multinode ==> Need(m[i]) >= Need(m[j]))
    {
      assert Le(KeyOf(Most, m[i]), KeyOf(Most, m[j]));
      MostInNeeds(m[i], m[j]);
    }
    forall i, j | 0 <= i < j < |l|
      ensures (l[i].multinode ==> l[j].multinode) && (!l[j].multinode ==> Need(l[i]) <= Need(l[j]))
    {
      assert Le(KeyOf(Least, l[i]), KeyOf(Least, l[j]));
      LeastInNeeds(l[i], l[j]);
    }
  }

  // ---- worker groups ----

  datatype Misuse = WithGpuCount | WithMultiGpu | BareInt | NoIndices

  /** The marker combinations that fail the session. */
  function Check(item: Item): Option<Misuse> {
    if !item.gpuIndices.With? then None
    else if !item.gpuCount.Absent? then Some(WithGpuCount)
    else if item.multiGpu then Some(WithMultiGpu)
    else if item.gpuIndices.arg.One? then Some(BareInt)
    else if item.gpuIndices.arg.indices == [] then Some(NoIndices)
    else None
  }

  /** What is refused and why, for every combination of markers; the first reason counts. */
  lemma CheckExactlyWhen(item: Item)
    ensures Check(item).None? <==>
              !item.gpuIndices.With?
              || (item.gpuCount.Absent? && !item.multiGpu && item.gpuIndices.arg.List? && |item.gpuIndices.arg.indices| > 0)
    ensures Check(item) == Some(WithGpuCount) <==> item.gpuIndices.With? && !item.gpuCount.Absent?
    ensures Check(item) == Some(WithMultiGpu) <==> item.gpuIndices.With? && item.gpuCount.Absent? && item.multiGpu
    ensures Check(item) == Some(BareInt) <==>
              item.gpuIndices.With? && item.gpuCount.Absent? && !item.multiGpu && item.gpuIndices.arg.One?
    ensures Check(item) == Some(NoIndices) <==>
              item.gpuIndices == With(List([])) && item.gpuCount.Absent? && !item.multiGpu
  {
  }

  /**
    A list of pinned indices is refused together with the marker multi_gpu, and with nothing else
    once gpu_count is absent; in particular hw.multi_gpu, the marker the message speaks of and the
    rest of the scheduler reads, makes no difference.
   */
  lemma PinnedConflictExactlyWhen(item: Item)
    requires item.gpuIndices.With? && item.gpuIndices.arg.List? && item.gpuIndices.arg.indices != [] && item.gpuCount.Absent?
    ensures Check(item).Some? <==> item.multiGpu
    ensures Check(item) == Check(item.(hwMultiGpu := !item.hwMultiGpu))
  {
  }

  /** A test pinned to GPU 0 and marked hw.multi_gpu passes the check and gets the group of a pinned test. */
  lemma PinnedMultiGpuIsAccepted()
    ensures var item := Item("t", With(List([0])), Absent, false, true, false, None);
            Check(item).None? && KindOf(item) == Pins && MultiGpuCount(item) == 2
            && GroupOf([item], 0) == Some("gpu_indices_0_0")
  {
    var item := Item("t", With(List([0])), Absent, false, true, false, None);
    assert [0][1..] == [];
    assert SortInts([0]) == InsertInt(0, []) == [0];
    assert Str(0) == ['0'];
    assert Named(GPU_INDICES + ['0'], 0) == "gpu_indices_0_0";
  }

  datatype Kind = Pins | Nodes | Gpus | Single

  function KindOf(item: Item): Kind {
    if item.gpuIndices.With? then Pins
    else if item.multinode then Nodes
    else if MultiGpuCount(item) > 0 then Gpus
    else Single
  }

  function InsertInt(x: int, s: seq<int>): seq<int> {
    if s == [] || x <= s[0] then [x] + s else [s[0]] + InsertInt(x, s[1..])
  }

  function SortInts(s: seq<int>): seq<int> {
    if s == [] then [] else InsertInt(s[0], SortInts(s[1..]))
  }

  ghost predicate Rising(s: seq<int>) {
    forall i, j :: 0 <= i < j < |s| ==> s[i] <= s[j]
  }

  lemma {:induction false} InsertIntElements(x: int, s: seq<int>)
    ensures multiset(InsertInt(x, s)) == multiset(s) + multiset{x}
  {
    if s == [] || x <= s[0] {
      assert multiset([x] + s) == multiset{x} + multiset(s);
    } else {
      InsertIntElements(x, s[1..]);
      assert s == [s[0]] + s[1..];
    }
  }

  lemma RisingCons(x: int, s: seq<int>)
    requires Rising(s) && forall y :: y in s ==> x <= y
    ensures Rising([x] + s)
  {
    forall j | 0 <= j < |s| ensures x <= s[j] {
      var y := s[j];
      assert y in s;
    }
  }

  lemma {:induction false} InsertIntRises(x: int, s: seq<int>)
    requires Rising(s)
    ensures Rising(InsertInt(x, s))
  {
    if s == [] || x <= s[0] {
      RisingCons(x, s);
    } else {
      var r := InsertInt(x, s[1..]);
      InsertIntRises(x, s[1..]);
      InsertIntElements(x, s[1..]);
      forall y | y in r ensures s[0] <= y {
        assert y in multiset(r);
        assert y == x || y in s[1..];
      }
      RisingCons(s[0], r);
    }
  }

  /** sorted(): the same indices in rising order. */
  lemma {:induction false} SortIntsSorts(s: seq<int>)
    ensures Rising(SortInts(s)) && multiset(SortInts(s)) == multiset(s)
  {
    if s != [] {
      SortIntsSorts(s[1..]);
      InsertIntRises(s[0], SortInts(s[1..]));
      InsertIntElements(s[0], SortInts(s[1..]));
      assert s == [s[0]] + s[1..];
    }
  }

  function Underscored(s: seq<int>): string {
    if s == [] then [] else if |s| == 1 then Str(s[0]) else Str(s[0]) + ['_'] + Underscored(s[1..])
  }

  const GPU_INDICES := "gpu_indices_"
  const MULTINODE := "multinode"
  const MULTI_GPU := "multi_gpu_"

  /** A group name without its counter. */
  function Stem(item: Item): string
    requires Check(item).None? && !KindOf(item).Single?
  {
    match KindOf(item)
    case Pins => GPU_INDICES + Underscored(SortInts(item.gpuIndices.arg.indices))
    case Nodes => MULTINODE
    case Gpus => MULTI_GPU + Str(MultiGpuCount(item))
  }

  function Named(stem: string, counter: nat): string {
    stem + (['_'] + Str(counter))
  }

  /** How many of the first n tests are of a kind. */
  ghost function CountKind(kind: Kind, items: seq<Item>, n: nat): nat
    requires n <= |items|
  {
    if n == 0 then 0
    else CountKind(kind, items, n - 1) + if KindOf(items[n - 1]) == kind then 1 else 0
  }

  /** The group of test i: its stem and the number of earlier tests of its kind; none for single-GPU tests. */
  ghost function GroupOf(items: seq<Item>, i: nat): Option<string>
    requires i < |items| && Check(items[i]).None?
  {
    if KindOf(items[i]).Single? then items[i].group
    else Some(Named(Stem(items[i]), CountKind(KindOf(items[i]), items, i)))
  }

  /** The groups as text; a test that asks for no more than one GPU keeps the group it has. */
  lemma GroupNames(items: seq<Item>, i: nat)
    requires i < |items| && Check(items[i]).None?
    ensures var item, k := items[i], CountKind(KindOf(items[i]), items, i);
            GroupOf(items, i) ==
              if item.gpuIndices.With? then Some("gpu_indices_" + Underscored(SortInts(item.gpuIndices.arg.indices)) + "_" + Str(k))
              else if item.multinode then Some("multinode_" + Str(k))
              else if Need(item) > 0 then Some("multi_gpu_" + Str(Need(item)) + "_" + Str(k))
              else item.group
  {
    if !KindOf(items[i]).Single? {
      var k := CountKind(KindOf(items[i]), items, i);
      var stem := Stem(items[i]);
      assert stem + (['_'] + Str(k)) == stem + "_" + Str(k);
      assert MULTINODE + (['_'] + Str(k)) == "multinode_" + Str(k);
    }
  }

  /** Indices are written one after the other with an underscore between. */
  lemma UnderscoredExactly(x: int, s: seq<int>)
    ensures Underscored([x]) == Str(x)
    ensures s != [] ==> Underscored([x] + s) == Str(x) + "_" + Underscored(s)
  {
    assert ([x] + s)[1..] == s;
    assert [x] == [x] + [];
  }

  lemma HeadIsLeast(s: seq<int>, x: int)
    requires Rising(s) && x in multiset(s)
    ensures s != [] && s[0] <= x
  {
    assert x in s;
    var i :| 0 <= i < |s| && s[i] == x;
    assert s[0] <= s[i];
  }

  lemma TailElements(s: seq<int>)
    requires s != []
    ensures multiset(s[1..]) == multiset(s) - multiset{s[0]} && s[0] in multiset(s)
  {
    assert s == [s[0]] + s[1..];
  }

  lemma SameLeast(s: seq<int>, t: seq<int>)
    requires Rising(s) && Rising(t) && multiset(s) == multiset(t) && s != []
    ensures t != [] && s[0] == t[0] && Rising(s[1..]) && Rising(t[1..]) && multiset(s[1..]) == multiset(t[1..])
  {
    TailElements(s);
    HeadIsLeast(t, s[0]);
    TailElements(t);
    HeadIsLeast(s, t[0]);
  }

  lemma HeadAndTail(s: seq<int>, t: seq<int>)
    requires s != [] && t != [] && s[0] == t[0] && s[1..] == t[1..]
    ensures s == t
  {
    assert s == [s[0]] + s[1..] && t == [t[0]] + t[1..];
  }

  lemma NoElements(t: seq<int>)
    requires multiset(t) == multiset{}
    ensures t == []
  {
    if t != [] {
      TailElements(t);
    }
  }

  lemma {:induction false} RisingIsUnique(s: seq<int>, t: seq<int>)
    requires Rising(s) && Rising(t) && multiset(s) == multiset(t)
    ensures s == t
    decreases |s|
  {
    if s == [] {
      NoElements(t);
    } else {
      SameLeast(s, t);
      RisingIsUnique(s[1..], t[1..]);
      HeadAndTail(s, t);
    }
  }

  /** The order in which indices are pinned does not show in the name: [2, 0] and [0, 2] are written alike. */
  lemma OrderIsForgotten(s: seq<int>, t: seq<int>)
    requires multiset(s) == multiset(t)
    ensures Underscored(SortInts(s)) == Underscored(SortInts(t))
  {
    SortIntsSorts(s);
    SortIntsSorts(t);
    RisingIsUnique(SortInts(s), SortInts(t));
  }

  lemma SameNameSameCounter(a: string, m: nat, b: string, n: nat)
    requires Named(a, m) == Named(b, n)
    ensures m == n
  {
    StrHasNoUnderscore(m);
    StrHasNoUnderscore(n);
    LastUnderscore(a, Str(m), b, Str(n));
    StrInjective(m, n);
  }

  /** The sixth character of a name tells the kind of test apart. */
  function Sixth(kind: Kind): char {
    match kind case Pins => 'n' case Nodes => 'n' case Gpus => '_' case Single => ' '
  }

  lemma StemTellsKind(item: Item, counter: nat)
    requires Check(item).None? && !KindOf(item).Single?
    ensures var name := Named(Stem(item), counter);
            |name| > 5 && (name[0] == 'g' <==> KindOf(item).Pins?) && name[5] == Sixth(KindOf(item))
  {
    var stem := Stem(item);
    match KindOf(item) {
      case Pins =>
        assert stem[0] == GPU_INDICES[0] && stem[5] == GPU_INDICES[5];
      case Nodes =>
        assert stem[0] == MULTINODE[0] && stem[5] == MULTINODE[5];
      case Gpus =>
        assert stem[0] == MULTI_GPU[0] && stem[5] == MULTI_GPU[5];
    }
  }

  lemma {:induction false} CountGrows(kind: Kind, items: seq<Item>, i: nat, j: nat)
    requires i < j <= |items| && KindOf(items[i]) == kind
    ensures CountKind(kind, items, i) < CountKind(kind, items, j)
  {
    if i + 1 < j {
      CountGrows(kind, items, i, j - 1);
    }
  }

  /** No two tests share a group, whatever the list. */
  lemma GroupsAreDistinct(items: seq<Item>, i: nat, j: nat)
    requires i < j < |items| && Check(items[i]).None? && Check(items[j]).None?
    requires !KindOf(items[i]).Single? && !KindOf(items[j]).Single?
    ensures GroupOf(items, i) != GroupOf(items, j)
  {
    var p, q := KindOf(items[i]), KindOf(items[j]);
    var m, n := CountKind(p, items, i), CountKind(q, items, j);
    StemTellsKind(items[i], m);
    StemTellsKind(items[j], n);
    if Named(Stem(items[i]), m) == Named(Stem(items[j]), n) {
      SameNameSameCounter(Stem(items[i]), m, Stem(items[j]), n);
      CountGrows(p, items, i, j);
    }
  }

  ghost predicate AssignedUpTo(before: seq<Item>, now: seq<Item>, n: nat)
    requires n <= |before|
  {
    && |now| == |before|
    && (forall i :: 0 <= i < n ==> Check(before[i]).None? && now[i] == before[i].(group := GroupOf(before, i)))
    && (forall i :: n <= i < |before| ==> now[i] == before[i])
  }

  lemma AssignStep(before: seq<Item>, now: seq<Item>, n: nat, g: Option<string>)
    requires n < |before| && AssignedUpTo(before, now, n) && Check(before[n]).None? && g == GroupOf(before, n)
    ensures AssignedUpTo(before, now[n := now[n].(group := g)], n + 1)
  {
  }

  /** After annotation, no two multi-resource tests are in the same group. */
  lemma AssignedGroupsAreDistinct(before: seq<Item>, now: seq<Item>, i: nat, j: nat)
    requires AssignedUpTo(before, now, |before|) && i < j < |before|
    requires !KindOf(now[i]).Single? && !KindOf(now[j]).Single?
    ensures now[i].group.Some? && now[j].group.Some? && now[i].group != now[j].group
  {
    GroupsAreDistinct(before, i, j);
  }

  /** The number the next test of a kind gets. */
  datatype Counters = Counters(pins: nat, nodes: nat, gpus: nat) {
    function Next(kind: Kind): nat {
      match kind case Pins => pins case Nodes => nodes case Gpus => gpus case Single => 0
    }
  }

  ghost predicate Counted(c: Counters, items: seq<Item>, n: nat)
    requires n <= |items|
  {
    c.pins == CountKind(Pins, items, n) && c.nodes == CountKind(Nodes, items, n) && c.gpus == CountKind(Gpus, items, n)
  }

  /** The group of one test and the counters after it. */
  method Annotate(item: Item, c: Counters) returns (g: Option<string>, d: Counters)
    requires Check(item).None?
    ensures g == if KindOf(item).Single? then item.group else Some(Named(Stem(item), c.Next(KindOf(item))))
    ensures forall kind :: d.Next(kind) == c.Next(kind) + if kind == KindOf(item) && !kind.Single? then 1 else 0
  {
    match KindOf(item) {
      case Pins =>
        return Some(Named(Stem(item), c.pins)), c.(pins := c.pins + 1);
      case Nodes =>
        return Some(Named(Stem(item), c.nodes)), c.(nodes := c.nodes + 1);
      case Gpus =>
        return Some(Named(Stem(item), c.gpus)), c.(gpus := c.gpus + 1);
      case Single =>
        return item.group, c;
    }
  }

  lemma CountedStep(items: seq<Item>, n: nat, c: Counters, d: Counters)
    requires n < |items| && Counted(c, items, n)
    requires forall kind :: d.Next(kind) == c.Next(kind) + if kind == KindOf(items[n]) && !kind.Single? then 1 else 0
    ensures Counted(d, items, n + 1)
  {
    assert d.Next(Pins) == d.pins && d.Next(Nodes) == d.nodes && d.Next(Gpus) == d.gpus;
  }

  /** The list pytest hands to the scheduler, which annotates and reorders it in place. */
  class Collection {
    var items: seq<Item>

    constructor (items: seq<Item>)
      ensures this.items == items
    {
      this.items := items;
    }

    /** Stops at the first test with misused markers; the tests before it keep their groups. */
    method AssignGroups() returns (bad: Option<(nat, Misuse)>)
      modifies this
      ensures bad.None? ==> AssignedUpTo(old(items), items, |old(items)|)
      ensures bad.Some? ==>
                var (i, why) := bad.value;
                i < |old(items)| && AssignedUpTo(old(items), items, i) && Check(old(items)[i]) == Some(why)
    {
      ghost var before := items;
      var c := Counters(0, 0, 0);
      var i := 0;
      while i < |items|
        invariant i <= |items| == |before| && AssignedUpTo(before, items, i)
        invariant Counted(c, before, i)
      {
        var check := Check(items[i]);
        if check.Some? {
          return Some((i, check.value));
        }
        var g, d := Annotate(items[i], c);
        AssignStep(before, items, i, g);
        CountedStep(before, i, c, d);
        items := items[i := items[i].(group := g)];
        i, c := i + 1, d;
      }
      return None;
    }

    /** Groups first, then the sort; a misuse leaves the order alone. */
    method Schedule(policy: Policy) returns (bad: Option<(nat, Misuse)>)
      modifies this
      ensures bad.None? ==> exists annotated ::
                AssignedUpTo(old(items), annotated, |old(items)|) && items == StableSort(policy, annotated)
      ensures bad.None? ==> if policy.Most? then HeaviestFirst(items) else LightestFirst(items)
      ensures bad.Some? ==>
                var (i, why) := bad.value;
                i < |old(items)| && AssignedUpTo(old(items), items, i) && Check(old(items)[i]) == Some(why)
    {
      bad := AssignGroups();
      if bad.None? {
        ghost var annotated := items;
        PoliciesOrderByNeed(items);
        items := StableSort(policy, items);
      }
    }
  }
}
