/**
  Priority of pending multi-GPU requests over single-GPU callers on one node: the yield test, and
  what it preserves along runs of grabs, releases and changes of the registry.
 */
module Priority {
  import opened Pending

  /** A single-GPU caller holds back: a satisfiable multi-GPU request would be left short. */
  predicate ShouldYield(maxPending: int, total: nat, available: int) {
    maxPending > 1 && maxPending <= total && available - 1 < maxPending
  }

  /** Free GPUs of a node, the counts of its live requests, and the callers past the yield test. */
  datatype State = State(free: nat, requests: set<int>, cleared: set<nat>)

  /** What a step does; the environment may also replace the live requests. */
  datatype Action =
    | CheckAndGrab
    | Check(caller: nat)
    | Grab(caller: nat)
    | GiveBack
    | Requests(live: set<int>)

  ghost predicate MayGrab(s: State, total: nat) {
    exists m :: IsMaxCount(m, s.requests) && !ShouldYield(m, total, s.free)
  }

  ghost predicate Next(s: State, a: Action, t: State, total: nat) {
    match a
    case CheckAndGrab => MayGrab(s, total) && s.free > 0 && t == s.(free := s.free - 1)
    case Check(w) => MayGrab(s, total) && t == s.(cleared := s.cleared + {w})
    case Grab(w) => w in s.cleared && s.free > 0 && t == s.(free := s.free - 1, cleared := s.cleared - {w})
    case GiveBack => s.free < total && t == s.(free := s.free + 1)
    case Requests(live) => t == s.(requests := live)
  }

  ghost predicate IsRun(run: seq<State>, actions: seq<Action>, total: nat) {
    && |run| == |actions| + 1
    && forall i :: 0 <= i < |actions| ==> Next(run[i], actions[i], run[i + 1], total)
  }

  /** The request for c stays live, and every live request fits the node. */
  ghost predicate Waiting(s: State, c: int, total: nat) {
    c in s.requests && forall r :: r in s.requests ==> r <= total
  }

  lemma GrabNeedsSpare(s: State, c: int, total: nat)
    requires c > 1 && Waiting(s, c, total) && MayGrab(s, total)
    ensures s.free > c
  {
    var m :| IsMaxCount(m, s.requests) && !ShouldYield(m, total, s.free);
  }

  /**
    While a request for c > 1 GPUs waits, runs of atomic check-then-grab steps and releases never
    take the free count from at least c to below c.
   */
  lemma {:induction false} ThresholdPreserved(run: seq<State>, actions: seq<Action>, total: nat, c: int, i: nat, j: nat)
    requires IsRun(run, actions, total) && i <= j < |run|
    requires c > 1 && forall k :: 0 <= k < |run| ==> Waiting(run[k], c, total)
    requires forall k :: 0 <= k < |actions| ==> !actions[k].Grab?
    requires run[i].free >= c
    ensures run[j].free >= c
    decreases j - i
  {
    if i < j {
      assert Next(run[i], actions[i], run[i + 1], total);
      if actions[i].CheckAndGrab? {
        GrabNeedsSpare(run[i], c, total);
      }
      ThresholdPreserved(run, actions, total, c, i + 1, j);
    }
  }

  lemma MaxCountExists(counts: set<int>)
    ensures exists m :: IsMaxCount(m, counts)
  {
    if counts == {} {
      assert IsMaxCount(0, counts);
    } else {
      EmptyOrInhabited(counts);
      var c :| c in counts;
      var rest := counts - {c};
      MaxCountExists(rest);
      var m :| IsMaxCount(m, rest);
      MaxCountStep(m, rest, c);
      assert rest + {c} == counts;
    }
  }

  /**
    When a single-GPU caller may go on, over the live requests themselves: none asks for more than one
    GPU, or one asks for more than the node has, or more GPUs are free than any of them asks for.
   */
  lemma MayGrabExactlyWhen(s: State, total: nat)
    ensures MayGrab(s, total) <==>
              || (forall r :: r in s.requests ==> r <= 1)
              || (exists r :: r in s.requests && r > total)
              || (forall r :: r in s.requests ==> s.free > r)
  {
    MaxCountExists(s.requests);
    var m :| IsMaxCount(m, s.requests);
    assert forall n :: IsMaxCount(n, s.requests) ==> n == m;
    assert MayGrab(s, total) <==> !ShouldYield(m, total, s.free);
    if s.requests != {} {
      assert m in s.requests;
    }
  }

  /** At exactly c free GPUs a grab is allowed if and only if some live request exceeds the node. */
  lemma GrabAtThreshold(s: State, c: int, total: nat)
    requires c > 1 && c in s.requests && s.free == c
    ensures MayGrab(s, total) <==> exists r :: r in s.requests && r > total
  {
    MaxCountExists(s.requests);
    var m :| IsMaxCount(m, s.requests);
    if exists r :: r in s.requests && r > total {
      assert !ShouldYield(m, total, s.free);
    }
    if MayGrab(s, total) {
      var n :| IsMaxCount(n, s.requests) && !ShouldYield(n, total, s.free);
      assert n > total;
    }
  }

  lemma CardinalityBound(a: set<nat>, b: set<nat>)
    requires a <= b
    ensures |a| <= |b|
  {
    assert b == a + (b - a);
  }

  /** Nobody has tested at the start, tests and grabs are separate steps, and only the given callers test. */
  ghost predicate SeparateSteps(run: seq<State>, actions: seq<Action>, callers: set<nat>) {
    && |run| > 0 && run[0].cleared == {}
    && (forall k :: 0 <= k < |actions| ==> !actions[k].CheckAndGrab?)
    && (forall k :: 0 <= k < |actions| && actions[k].Check? ==> actions[k].caller in callers)
  }

  /**
    In the source the test and the grab are separate steps. Then at most one caller is entitled to
    the spare GPU, so with n single-GPU callers the free count never drops below c + 1 - n.
   */
  lemma {:induction false} OvershootBounded(run: seq<State>, actions: seq<Action>, total: nat, c: int, callers: set<nat>, j: nat)
    requires IsRun(run, actions, total) && j < |run|
    requires c > 1 && forall k :: 0 <= k < |run| ==> Waiting(run[k], c, total)
    requires SeparateSteps(run, actions, callers) && run[0].free >= c && callers != {}
    ensures run[j].cleared <= callers
    ensures run[j].free >= c + 1 - |callers| + |run[j].cleared|
  {
    if j == 0 {
      CardinalityBound({}, callers);
    } else {
      OvershootBounded(run, actions, total, c, callers, j - 1);
      var s, t, a := run[j - 1], run[j], actions[j - 1];
      assert Next(s, a, t, total);
      if a.Check? {
        GrabNeedsSpare(s, c, total);
        CardinalityBound(t.cleared, callers);
      } else if a.Grab? {
        assert s.cleared == t.cleared + {a.caller};
      }
    }
  }

  /** Callers lo..hi-1. */
  function Callers(lo: nat, hi: nat): set<nat> {
    set w: nat | lo <= w < hi && Between(lo, w, hi)
  }

  predicate Between(lo: nat, w: nat, hi: nat) {
    lo <= w < hi
  }

  /** A run during which the request for c waits and the free count goes from first to last. */
  ghost predicate WaitingRun(run: seq<State>, actions: seq<Action>, total: nat, c: int, first: int, last: int) {
    && IsRun(run, actions, total)
    && (forall k :: 0 <= k < |run| ==> Waiting(run[k], c, total))
    && run[0].free == first && run[|run| - 1].free == last
  }

  /**
    The bound is reached by a run that meets every condition of OvershootBounded: n callers that all
    test at c + 1 free GPUs and then grab leave c + 1 - n.
   */
  lemma OvershootReached(total: nat, c: int, n: nat) returns (run: seq<State>, actions: seq<Action>)
    requires 1 < c < total && n <= c + 1
    ensures WaitingRun(run, actions, total, c, c + 1, c + 1 - n)
    ensures SeparateSteps(run, actions, Callers(0, n)) && |Callers(0, n)| == n && run[|run| - 1].cleared == {}
  {
    var at := (k: nat) requires k <= 2 * n =>
      if k <= n then State(c + 1, {c}, Callers(0, k)) else State(c + 1 - (k - n), {c}, Callers(k - n, n));
    run := seq(2 * n + 1, k requires 0 <= k < 2 * n + 1 => at(k));
    actions := seq(2 * n, k requires 0 <= k < 2 * n => if k < n then Check(k) else Grab(k - n));
    assert IsMaxCount(c, {c}) && !ShouldYield(c, total, c + 1);
    forall k | 0 <= k < 2 * n
      ensures Next(run[k], actions[k], run[k + 1], total)
    {
      if k < n {
        assert Callers(0, k) + {k} == Callers(0, k + 1);
        assert MayGrab(run[k], total);
      } else {
        assert Callers(k - n, n) - {k - n} == Callers(k - n + 1, n);
      }
    }
    CountCallers(n);
    assert Callers(n, n) == {} && Callers(0, 0) == {};
  }

  lemma {:induction false} CountCallers(n: nat)
    ensures |Callers(0, n)| == n
  {
    if n == 0 {
      assert Callers(0, 0) == {};
    } else {
      CountCallers(n - 1);
      assert Callers(0, n - 1) + {n - 1} == Callers(0, n);
    }
  }

  /**
    A request for one pinned GPU registers the count 1, and single-GPU callers test only counts
    above 1: such a registration never changes anyone's decision.
   */
  lemma PinnedIntentHasNoEffect(requests: set<int>, m: int, n: int, total: nat, available: int)
    requires IsMaxCount(m, requests) && IsMaxCount(n, requests + {1})
    ensures ShouldYield(m, total, available) <==> ShouldYield(n, total, available)
  {
    if m > 1 {
      assert m in requests + {1};
    }
    if n > 1 {
      assert n in requests;
    }
  }
}
