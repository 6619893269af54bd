/**
  The cross-process registry of pending multi-GPU requests. The file holds a map that is pruned
  on every query; the reference is the whole history of registrations.
 */
module Pending {

  datatype Entry = Entry(count: int, timeoutAt: real)

  function LiveAt(data: map<string, Entry>, now: real): map<string, Entry> {
    map id | id in data && data[id].timeoutAt > now :: data[id]
  }

  /** m is the answer a query owes for a collection of counts: their maximum, or 0 for none. */
  ghost predicate IsMaxCount(m: int, counts: set<int>) {
    if counts == {} then m == 0 else m in counts && forall c :: c in counts ==> c <= m
  }

  function Counts(data: map<string, Entry>): set<int> {
    set id | id in data :: data[id].count
  }

  /** The shared registry file, updated under its lock. */
  class Tracker {
    var data: map<string, Entry>

    constructor ()
      ensures data == map[]
    {
      data := map[];
    }

    method Register(id: string, count: int, timeoutAt: real)
      modifies this
      ensures data == Step(old(data), Op.Register(id, Entry(count, timeoutAt)))
    {
      data := data[id := Entry(count, timeoutAt)];
    }

    method Deregister(id: string)
      modifies this
      ensures data == Step(old(data), Op.Deregister(id))
    {
      if id in data {
        data := data - {id};
      }
    }

    /** Prunes what has expired and answers with the largest live count. */
    method MaxPendingCount(now: real) returns (m: int)
      modifies this
      ensures data == Step(old(data), Op.Query(now))
      ensures IsMaxCount(m, Counts(LiveAt(old(data), now)))
    {
      var live := LiveAt(data, now);
      if |live| != |data| {
        data := live;
      } else {
        LiveCountSame(data, now);
      }
      m := MaxCount(Counts(live));
    }
  }

  /** The maximum of the live counts; 0 when there are none. */
  method MaxCount(counts: set<int>) returns (m: int)
    ensures IsMaxCount(m, counts)
  {
    m := 0;
    var rest := counts;
    while rest != {}
      invariant rest <= counts
      invariant IsMaxCount(m, counts - rest)
      decreases |rest|
    {
      EmptyOrInhabited(rest);
      var c :| c in rest;
      MaxCountStep(m, counts - rest, c);
      OneLess(counts, rest, c);
      m := if rest == counts || m < c then c else m;
      rest := rest - {c};
    }
    assert counts - rest == counts;
  }

  lemma OneLess(counts: set<int>, rest: set<int>, c: int)
    requires rest <= counts && c in rest
    ensures counts - (rest - {c}) == (counts - rest) + {c}
    ensures counts - rest == {} <==> rest == counts
  {
    if counts - rest == {} {
      forall x | x in counts ensures x in rest {
        assert x !in counts - rest;
      }
    }
  }

  lemma EmptyOrInhabited(s: set<int>)
    ensures s == {} || exists x :: x in s
  {
    if !exists x :: x in s {
      assert s == {};
    }
  }

  /** Taking one more count into account keeps the running maximum right. */
  lemma MaxCountStep(m: int, done: set<int>, c: int)
    requires IsMaxCount(m, done)
    ensures IsMaxCount(if done == {} || m < c then c else m, done + {c})
  {
    assert c in done + {c};
  }

  lemma LiveCountSame(data: map<string, Entry>, now: real)
    requires |LiveAt(data, now)| == |data|
    ensures LiveAt(data, now) == data
  {
    var live := LiveAt(data, now);
    assert live.Keys <= data.Keys;
    if live.Keys != data.Keys {
      assert live.Keys < data.Keys;
      SubsetSmaller(live.Keys, data.Keys);
    }
  }

  lemma SubsetSmaller<T>(a: set<T>, b: set<T>)
    requires a < b
    ensures |a| < |b|
  {
    assert b == a + (b - a);
    assert b - a != {};
  }

  // ---- histories ----

  /** One completed registry operation, of any process, in the order of the registry lock. */
  datatype Op =
    | Register(id: string, entry: Entry)
    | Deregister(id: string)
    | Query(now: real)
  {
    predicate Touches(i: string) {
      (Register? || Deregister?) && id == i
    }
  }

  /** The pruned map after one operation. */
  function Step(data: map<string, Entry>, op: Op): map<string, Entry> {
    match op
    case Register(id, e) => data[id := e]
    case Deregister(id) => data - {id}
    case Query(now) => LiveAt(data, now)
  }

  function Replay(ops: seq<Op>): map<string, Entry> {
    if ops == [] then map[] else Step(Replay(ops[..|ops| - 1]), ops[|ops| - 1])
  }

  /** Operation i registered e under id, and nothing later registered or deregistered that id. */
  ghost predicate Outstanding(ops: seq<Op>, i: nat, id: string, e: Entry) {
    && i < |ops| && ops[i] == Register(id, e)
    && forall j :: i < j < |ops| ==> !ops[j].Touches(id)
  }

  /** No later query read a clock at or past the deadline of e. */
  ghost predicate Unpruned(ops: seq<Op>, i: nat, e: Entry) {
    forall j :: i < j < |ops| && ops[j].Query? ==> e.timeoutAt > ops[j].now
  }

  /**
    What the file holds, for any clock readings whatever: exactly the outstanding registrations
    that no later query has seen expired.
   */
  lemma {:induction false} ReplayIsOutstandingUnpruned(ops: seq<Op>, id: string, e: Entry)
    ensures id in Replay(ops) && Replay(ops)[id] == e
       <==> exists i: nat :: Outstanding(ops, i, id, e) && Unpruned(ops, i, e)
    decreases |ops|
  {
    if ops != [] {
      var n := |ops| - 1;
      var init, last := ops[..n], ops[n];
      ReplayIsOutstandingUnpruned(init, id, e);
      if id in Replay(ops) && Replay(ops)[id] == e {
        if last == Register(id, e) {
          assert Outstanding(ops, n, id, e) && Unpruned(ops, n, e);
        } else {
          var i: nat :| Outstanding(init, i, id, e) && Unpruned(init, i, e);
          assert Outstanding(ops, i, id, e) && Unpruned(ops, i, e);
        }
      }
      if exists i: nat :: Outstanding(ops, i, id, e) && Unpruned(ops, i, e) {
        var i: nat :| Outstanding(ops, i, id, e) && Unpruned(ops, i, e);
        if i < n {
          assert Outstanding(init, i, id, e) && Unpruned(init, i, e);
          assert !ops[n].Touches(id);
        }
      }
    }
  }

  /** The reference answer at time now: outstanding, unexpired registrations of the whole history. */
  ghost predicate WantedAt(ops: seq<Op>, now: real, c: int) {
    exists i: nat, id, e :: Outstanding(ops, i, id, e) && e.timeoutAt > now && e.count == c
  }

  /** Clock readings never decrease along the registry lock, up to a final reading now. */
  ghost predicate MonotoneClock(ops: seq<Op>, now: real) {
    && (forall i, j :: 0 <= i < j < |ops| && ops[i].Query? && ops[j].Query? ==> ops[i].now <= ops[j].now)
    && (forall i :: 0 <= i < |ops| && ops[i].Query? ==> ops[i].now <= now)
  }

  /**
    Pruning never changes an answer: with a monotone clock, a query after any history answers
    with the maximum over all registrations ever made, not deregistered and not expired.
   */
  lemma PrunedAnswersAsFullHistory(ops: seq<Op>, now: real, c: int)
    requires MonotoneClock(ops, now)
    ensures c in Counts(LiveAt(Replay(ops), now)) <==> WantedAt(ops, now, c)
  {
    if c in Counts(LiveAt(Replay(ops), now)) {
      var id :| id in LiveAt(Replay(ops), now) && Replay(ops)[id].count == c;
      var e := Replay(ops)[id];
      ReplayIsOutstandingUnpruned(ops, id, e);
    }
    if WantedAt(ops, now, c) {
      var i: nat, id, e :| Outstanding(ops, i, id, e) && e.timeoutAt > now && e.count == c;
      assert Unpruned(ops, i, e);
      ReplayIsOutstandingUnpruned(ops, id, e);
      assert id in LiveAt(Replay(ops), now);
    }
  }

  /**
    The clock is read before the registry lock is taken, so readings may arrive out of order. The
    answer then still only ever omits a registration that some query had seen expired.
   */
  lemma OutOfOrderQueryOmitsOnlyExpired(ops: seq<Op>, now: real, i: nat, id: string, e: Entry)
    requires Outstanding(ops, i, id, e) && e.timeoutAt > now
    ensures id in LiveAt(Replay(ops), now) && Replay(ops)[id] == e
       <==> !exists j :: i < j < |ops| && ops[j].Query? && e.timeoutAt <= ops[j].now
  {
    ReplayIsOutstandingUnpruned(ops, id, e);
    if exists k: nat :: Outstanding(ops, k, id, e) && Unpruned(ops, k, e) {
      var k: nat :| Outstanding(ops, k, id, e) && Unpruned(ops, k, e);
      assert k == i by {
        if k < i { assert ops[i].Touches(id); }
        if i < k { assert ops[k].Touches(id); }
      }
    }
  }

  /** Without the monotone clock the full-history answer can differ from the pruned one. */
  lemma OutOfOrderQueryDiffers()
    ensures var ops := [Register("r", Entry(2, 11.0)), Query(12.0)];
            WantedAt(ops, 10.0, 2) && 2 !in Counts(LiveAt(Replay(ops), 10.0))
  {
    var ops := [Register("r", Entry(2, 11.0)), Query(12.0)];
    assert Outstanding(ops, 0, "r", Entry(2, 11.0));
    assert ops[..1] == [Register("r", Entry(2, 11.0))];
    assert ops[..1][..0] == [];
    assert Replay(ops[..1]) == map["r" := Entry(2, 11.0)];
    assert Replay(ops) == map[];
  }

  // ---- expired intent has no influence ----

  ghost predicate FreshIds(ops: seq<Op>) {
    forall i, j :: 0 <= i < j < |ops| && ops[i].Register? && ops[j].Register? ==> ops[i].id != ops[j].id
  }

  /** The history as if requests with a deadline at or before now had never been registered. */
  function WithoutExpired(ops: seq<Op>, now: real): seq<Op> {
    if ops == [] then [] else
    var rest := WithoutExpired(ops[..|ops| - 1], now);
    var last := ops[|ops| - 1];
    if last.Register? && last.entry.timeoutAt <= now then rest else rest + [last]
  }

  lemma ReplayedIdWasRegistered(ops: seq<Op>, id: string)
    requires id in Replay(ops)
    ensures exists i :: 0 <= i < |ops| && ops[i].Register? && ops[i].id == id
  {
    ReplayIsOutstandingUnpruned(ops, id, Replay(ops)[id]);
  }

  /**
    No registration has any effect on an answer at or after its deadline, whether its owner
    succeeded, timed out, failed to deregister or crashed.
   */
  lemma {:induction false} ExpiredIntentHasNoEffect(ops: seq<Op>, now: real)
    requires FreshIds(ops)
    ensures LiveAt(Replay(ops), now) == LiveAt(Replay(WithoutExpired(ops, now)), now)
    decreases |ops|
  {
    if ops != [] {
      var n := |ops| - 1;
      var init, last := ops[..n], ops[n];
      ExpiredIntentHasNoEffect(init, now);
      var a, b := Replay(init), Replay(WithoutExpired(init, now));
      if last.Register? && last.entry.timeoutAt <= now {
        NewId(ops);
        ExpiredAdds(a, last.id, last.entry, now);
      } else {
        var kept := WithoutExpired(init, now);
        assert (kept + [last])[..|kept|] == kept;
        assert Replay(kept + [last]) == Step(b, last);
        SameLiveStep(a, b, last, now);
      }
    }
  }

  /** The last registration of a history uses an id the file does not hold. */
  lemma NewId(ops: seq<Op>)
    requires FreshIds(ops) && ops != [] && ops[|ops| - 1].Register?
    ensures ops[|ops| - 1].id !in Replay(ops[..|ops| - 1])
  {
    var init, id := ops[..|ops| - 1], ops[|ops| - 1].id;
    if id in Replay(init) {
      ReplayedIdWasRegistered(init, id);
    }
  }

  lemma ExpiredAdds(data: map<string, Entry>, id: string, e: Entry, now: real)
    requires id !in data && e.timeoutAt <= now
    ensures LiveAt(data[id := e], now) == LiveAt(data, now)
  {
  }

  lemma SameLiveStep(a: map<string, Entry>, b: map<string, Entry>, op: Op, now: real)
    requires LiveAt(a, now) == LiveAt(b, now)
    ensures LiveAt(Step(a, op), now) == LiveAt(Step(b, op), now)
  {
    forall id
      ensures id in LiveAt(Step(a, op), now) <==> id in LiveAt(Step(b, op), now)
      ensures id in LiveAt(Step(a, op), now) ==> Step(a, op)[id] == Step(b, op)[id]
    {
      assert id in LiveAt(a, now) <==> id in LiveAt(b, now);
      assert id in LiveAt(a, now) ==> LiveAt(a, now)[id] == LiveAt(b, now)[id];
    }
  }
}
