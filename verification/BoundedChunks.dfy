/** The capture buffer that keeps only the most recent output, evicting whole oldest chunks. */
module BoundedChunks {

  function Total<T>(chunks: seq<seq<T>>): nat {
    if chunks == [] then 0 else |chunks[0]| + Total(chunks[1..])
  }

  /** The total length of history[k..]. */
  function TotalFrom<T>(history: seq<seq<T>>, k: nat): nat
    requires k <= |history|
    decreases |history| - k
  {
    if k == |history| then 0 else |history[k]| + TotalFrom(history, k + 1)
  }

  lemma {:induction false} TotalFromIsTotal<T>(history: seq<seq<T>>, k: nat)
    requires k <= |history|
    ensures TotalFrom(history, k) == Total(history[k..])
    decreases |history| - k
  {
    if k < |history| {
      TotalFromIsTotal(history, k + 1);
      assert history[k..][1..] == history[k + 1..];
    }
  }

  lemma {:induction false} TotalFromAppend<T>(history: seq<seq<T>>, c: seq<T>, k: nat)
    requires k <= |history|
    ensures TotalFrom(history + [c], k) == TotalFrom(history, k) + |c|
    decreases |history| - k
  {
    if k < |history| {
      TotalFromAppend(history, c, k + 1);
    } else {
      assert TotalFrom(history + [c], k + 1) == 0;
    }
  }

  lemma {:induction false} TotalFromShrinks<T>(history: seq<seq<T>>, i: nat, j: nat)
    requires i <= j <= |history|
    ensures TotalFrom(history, j) <= TotalFrom(history, i)
    decreases |history| - i
  {
    if i < j {
      TotalFromShrinks(history, i + 1, j);
    }
  }

  /** Dropping the first k chunks is what the cap asks for: enough, and no more than needed. */
  ghost predicate RightCut<T>(history: seq<seq<T>>, max: int, k: nat) {
    && k <= |history| && (k == |history| ==> history == [])
    && (TotalFrom(history, k) <= max || k + 1 >= |history|)
    && TooLong(history, max, k)
  }

  /** Every suffix that starts before k exceeds the cap. */
  ghost predicate TooLong<T>(history: seq<seq<T>>, max: int, k: nat)
    requires k <= |history|
  {
    forall j :: 0 <= j < k ==> TotalFrom(history, j) > max
  }

  /** There is only one right cut, so what is kept is a function of the history. */
  lemma RightCutUnique<T>(history: seq<seq<T>>, max: int, a: nat, b: nat)
    requires RightCut(history, max, a) && RightCut(history, max, b)
    ensures a == b
  {
  }

  /**
    A right cut keeps the longest suffix of whole chunks that fits, or the last chunk alone if even
    that is too long.
   */
  lemma RightCutIsLongestFit<T>(history: seq<seq<T>>, max: int, k: nat)
    requires RightCut(history, max, k) && history != []
    ensures var n := |history| - 1;
            if Total(history[n..]) > max then k == n
            else Total(history[k..]) <= max && forall j :: 0 <= j < k ==> Total(history[j..]) > max
  {
    var n := |history| - 1;
    TotalFromIsTotal(history, n);
    TotalFromIsTotal(history, k);
    TotalFromShrinks(history, k, n);
    forall j | 0 <= j < k
      ensures Total(history[j..]) > max
    {
      TotalFromIsTotal(history, j);
    }
  }

  /** The chunks are what is left of the history after dropping only suffixes that were too long. */
  ghost predicate Tail<T>(history: seq<seq<T>>, max: int, chunks: seq<seq<T>>, total: int, truncated: bool) {
    && |chunks| <= |history| && chunks == history[|history| - |chunks|..]
    && TooLong(history, max, |history| - |chunks|)
    && total == TotalFrom(history, |history| - |chunks|)
    && (truncated <==> |chunks| < |history|)
  }

  /** An overlong tail of more than one chunk can lose its oldest chunk; otherwise it is as it should be. */
  ghost predicate Settled<T>(history: seq<seq<T>>, max: int, chunks: seq<seq<T>>, total: int, truncated: bool) {
    Tail(history, max, chunks, total, truncated) && (total <= max || |chunks| <= 1) && (chunks == [] ==> history == [])
  }

  class Buffer<T> {
    const max: int
    var chunks: seq<seq<T>>
    var total: int
    var truncated: bool
    ghost var history: seq<seq<T>>

    /** The kept chunks are the history cut right; total and truncated describe that cut. */
    ghost predicate Valid()
      reads this
    {
      Settled(history, max, chunks, total, truncated)
    }

    constructor (max: int)
      ensures Valid() && history == [] && this.max == max
    {
      this.max := max;
      chunks, total, truncated, history := [], 0, false, [];
    }

    method Append(chunk: seq<T>)
      requires Valid()
      modifies this
      ensures Valid() && history == old(history) + [chunk]
    {
      TailAppend(history, max, chunks, total, truncated, chunk);
      history := history + [chunk];
      chunks := chunks + [chunk];
      total := total + |chunk|;
      while total > max && |chunks| > 1
        invariant chunks != [] && history == old(history) + [chunk]
        invariant Tail(history, max, chunks, total, truncated)
        decreases |chunks|
      {
        EvictOldest();
      }
    }

    /** Drops the oldest chunk of an overlong buffer. */
    method EvictOldest()
      requires Tail(history, max, chunks, total, truncated) && chunks != [] && total > max
      modifies `chunks, `total, `truncated
      ensures Tail(history, max, chunks, total, truncated) && |chunks| == |old(chunks)| - 1
    {
      TailEvict(history, max, chunks, total, truncated);
      total := total - |chunks[0]|;
      chunks := chunks[1..];
      truncated := true;
    }
  }

  /** What a valid buffer holds, said of the history alone. */
  lemma ValidIsRightCut<T>(history: seq<seq<T>>, max: int, chunks: seq<seq<T>>, total: int, truncated: bool)
    requires Settled(history, max, chunks, total, truncated)
    ensures RightCut(history, max, |history| - |chunks|)
    ensures total == Total(chunks)
    ensures truncated <==> chunks != history
  {
    SettledIsRightCut(history, max, chunks, total, truncated);
    SettledTotal(history, max, chunks, total, truncated);
    WholeIsItself(history, |chunks|);
  }

  lemma SettledIsRightCut<T>(history: seq<seq<T>>, max: int, chunks: seq<seq<T>>, total: int, truncated: bool)
    requires Settled(history, max, chunks, total, truncated)
    ensures RightCut(history, max, |history| - |chunks|)
  {
  }

  lemma SettledTotal<T>(history: seq<seq<T>>, max: int, chunks: seq<seq<T>>, total: int, truncated: bool)
    requires Settled(history, max, chunks, total, truncated)
    ensures total == Total(chunks)
  {
    TotalFromIsTotal(history, |history| - |chunks|);
  }

  lemma WholeIsItself<T>(history: seq<seq<T>>, n: nat)
    requires n <= |history|
    ensures history[|history| - n..] == history <==> n == |history|
  {
  }

  lemma TailAppend<T>(history: seq<seq<T>>, max: int, chunks: seq<seq<T>>, total: int, truncated: bool, chunk: seq<T>)
    requires Tail(history, max, chunks, total, truncated)
    ensures Tail(history + [chunk], max, chunks + [chunk], total + |chunk|, truncated)
  {
    var k: nat := |history| - |chunks|;
    forall j: nat | j <= k
      ensures TotalFrom(history + [chunk], j) == TotalFrom(history, j) + |chunk|
    {
      TotalFromAppend(history, chunk, j);
    }
    assert (history + [chunk])[k..] == chunks + [chunk];
  }

  lemma TailEvict<T>(history: seq<seq<T>>, max: int, chunks: seq<seq<T>>, total: int, truncated: bool)
    requires Tail(history, max, chunks, total, truncated) && chunks != [] && total > max
    ensures Tail(history, max, chunks[1..], total - |chunks[0]|, true)
  {
    var k: nat := |history| - |chunks|;
    assert history[k..][1..] == history[k + 1..];
  }
}
