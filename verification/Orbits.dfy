/** Repeating a deterministic step over numbers below a bound: it stops, or it comes back to where it was. */
module Orbits {
  import opened Base

  /** Where k steps from x lead; None once the stepping has stopped. */
  function At(step: nat -> Option<nat>, x: Option<nat>, k: nat): Option<nat>
    decreases k
  {
    if k == 0 || x.None? then x else At(step, step(x.value), k - 1)
  }

  lemma {:induction false} AtNone(step: nat -> Option<nat>, k: nat)
    ensures At(step, None, k) == None
  {
  }

  lemma {:induction false} AtAdd(step: nat -> Option<nat>, x: Option<nat>, a: nat, b: nat)
    ensures At(step, x, a + b) == At(step, At(step, x, a), b)
    decreases a
  {
    if a > 0 && x.Some? {
      AtAdd(step, step(x.value), a - 1, b);
    }
  }

  /** Coming back after d steps means never stopping. */
  lemma {:induction false} CycleGoesOn(step: nat -> Option<nat>, x: Option<nat>, d: nat, k: nat)
    requires d > 0 && x.Some? && At(step, x, d) == x
    ensures At(step, x, k).Some?
    decreases k
  {
    if k < d {
      AtAdd(step, x, k, d - k);
    } else {
      AtAdd(step, x, d, k - d);
      CycleGoesOn(step, x, d, k - d);
    }
  }

  lemma RepeatGoesOn(step: nat -> Option<nat>, x: Option<nat>, a: nat, b: nat, k: nat)
    requires a < b && At(step, x, a).Some? && At(step, x, a) == At(step, x, b)
    ensures At(step, x, k).Some?
  {
    if k < a {
      AtAdd(step, x, k, a - k);
    } else {
      AtAdd(step, x, a, b - a);
      CycleGoesOn(step, At(step, x, a), b - a, k - a);
      AtAdd(step, x, a, k - a);
    }
  }

  ghost predicate NoneTwice(s: seq<nat>) {
    forall i, j :: 0 <= i < j < |s| ==> s[i] != s[j]
  }

  lemma {:induction false} DistinctFit(s: seq<nat>, room: set<nat>)
    requires NoneTwice(s) && forall i :: 0 <= i < |s| ==> s[i] in room
    ensures |s| <= |room|
  {
    if s != [] {
      var last := |s| - 1;
      DistinctFit(s[..last], room - {s[last]});
    }
  }

  function Below(n: nat): (r: set<nat>)
    ensures |r| <= n && forall x: nat :: x < n ==> x in r
  {
    if n == 0 then {} else Below(n - 1) + {n - 1}
  }

  /** More numbers below n than n: two of them are equal. */
  lemma Pigeonhole(s: seq<nat>, n: nat)
    requires |s| > n && forall i :: 0 <= i < |s| ==> s[i] < n
    ensures !NoneTwice(s)
  {
    if NoneTwice(s) {
      DistinctFit(s, Below(n));
    }
  }

  /** Every step leads below n. */
  ghost predicate Stays(step: nat -> Option<nat>, n: nat) {
    forall m: nat :: step(m).Some? ==> step(m).value < n
  }

  lemma {:induction false} AtBelow(step: nat -> Option<nat>, x: Option<nat>, n: nat, k: nat)
    requires Stays(step, n) && (x.Some? ==> x.value < n)
    ensures At(step, x, k).Some? ==> At(step, x, k).value < n
    decreases k
  {
    if k > 0 && x.Some? {
      AtBelow(step, step(x.value), n, k - 1);
    }
  }

  /** Going on for n steps among numbers below n means coming back to one of them. */
  lemma LongRunRepeats(step: nat -> Option<nat>, x: Option<nat>, n: nat) returns (a: nat, b: nat)
    requires At(step, x, n).Some? && Stays(step, n) && (x.Some? ==> x.value < n)
    ensures a < b <= n && At(step, x, a).Some? && At(step, x, a) == At(step, x, b)
  {
    forall k: nat | k <= n ensures At(step, x, k).Some? && At(step, x, k).value < n {
      AtAdd(step, x, k, n - k);
      AtBelow(step, x, n, k);
    }
    var s: seq<nat> := seq(n + 1, k requires 0 <= k < n + 1 => At(step, x, k).value);
    Pigeonhole(s, n);
    var i, j :| 0 <= i < j < n + 1 && s[i] == s[j];
    a, b := i, j;
  }
}
