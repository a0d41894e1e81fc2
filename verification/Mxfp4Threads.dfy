/**
 * The row partition over threads in tools/fused_gemv.c.  Each thread repeats its own rows, in any
 * interleaving with the others; when a thread cannot be created the whole matrix is recomputed after
 * the others have been joined.
 */
module Mxfp4Threads {
  import opened Mxfp4Kernels
  import opened Mxfp4Lanes
  import opened Mxfp4Matrix
  import opened Mxfp4Weights

  const MAX_THREADS: nat := 16

  function ClampThreads(n: int): (threads: nat)
    ensures 1 <= threads <= 16 && (n < threads ==> threads == 1) && (n > threads ==> threads == 16)
  {
    if n < 1 then 1 else if n > MAX_THREADS then MAX_THREADS else n
  }

  /** Rows for each thread, rounded up to an even number. */
  function Share(rows: nat, threads: nat): nat
    requires threads > 0
  {
    ((rows + threads - 1) / threads + 1) / 2 * 2
  }

  function First(share: nat, t: nat): nat { t * share }
  function Last(share: nat, rows: nat, t: nat): nat { if (t + 1) * share > rows then rows else (t + 1) * share }

  predicate OwnsRow(share: nat, rows: nat, t: nat, r: nat) { First(share, t) <= r < Last(share, rows, t) }

  lemma ShareCovers(rows: nat, threads: nat)
    requires threads > 0
    ensures Share(rows, threads) * threads >= rows
  {
    var k := (rows + threads - 1) / threads;
    assert threads * k + (rows + threads - 1) % threads == rows + threads - 1;
    assert Share(rows, threads) >= k;
    assert Share(rows, threads) * threads >= k * threads;
  }

  /** The share is the least even number of rows with which the threads cover all of them. */
  lemma ShareIsLeast(rows: nat, threads: nat, share: nat)
    requires threads > 0 && share % 2 == 0
    ensures Share(rows, threads) % 2 == 0 && (share >= Share(rows, threads) <==> share * threads >= rows)
  {
    var k := (rows + threads - 1) / threads;
    ShareCovers(rows, threads);
    hide Share;
    Multiples(Share(rows, threads), share, threads);
    Multiples(share + 1, k, threads);
    RoundedQuotient(rows, threads, k);
    if share >= k { RoundedUp(k, share); }
    EvenShare(rows, threads, k);
  }

  lemma RoundedQuotient(rows: nat, threads: nat, k: nat)
    requires threads > 0 && k == (rows + threads - 1) / threads
    ensures rows <= k * threads <= rows + threads - 1
  {
  }

  lemma EvenShare(rows: nat, threads: nat, k: nat)
    requires threads > 0 && k == (rows + threads - 1) / threads
    ensures Share(rows, threads) == (k + 1) / 2 * 2 && Share(rows, threads) % 2 == 0
  {
  }

  lemma RoundedUp(k: nat, share: nat)
    requires share % 2 == 0 && share >= k
    ensures share >= (k + 1) / 2 * 2
  {
  }

  lemma Multiples(a: nat, b: nat, share: nat)
    ensures a <= b ==> a * share <= b * share
  {
  }

  /** Consecutive shares tile the rows they reach. */
  lemma {:induction false} SomeShare(share: nat, threads: nat, r: nat) returns (t: nat)
    requires r < threads * share
    ensures t < threads && t * share <= r < (t + 1) * share
    decreases threads
  {
    if r >= (threads - 1) * share {
      t := threads - 1;
    } else {
      t := SomeShare(share, threads - 1, r);
    }
  }

  /** Every row has a thread, */
  lemma EveryRowOwned(rows: nat, threads: nat, r: nat) returns (t: nat)
    requires threads > 0 && r < rows
    ensures t < threads && OwnsRow(Share(rows, threads), rows, t, r)
  {
    ShareCovers(rows, threads);
    hide Share;
    t := SomeShare(Share(rows, threads), threads, r);
  }

  /** and only one. */
  lemma RowOwnedOnce(share: nat, rows: nat, t: nat, u: nat, r: nat)
    requires OwnsRow(share, rows, t, r) && OwnsRow(share, rows, u, r)
    ensures t == u
  {
    Multiples(t + 1, u, share);
    Multiples(u + 1, t, share);
  }

  /** What the output holds while the threads run: a thread that has finished a pass has its rows in place. */
  ghost predicate Underway<F>(ops: Ops<F>, p: seq<Lanes16>, s: seq<Byte>, x: seq<F>, groups: nat, rows: nat, share: nat,
                              passes: seq<nat>, before: seq<F>, y: seq<F>)
    requires Matching(p, s) && Base(rows, groups) <= |p| && 32 * groups <= |x|
  {
    && |y| == |before| && rows <= |y|
    && (forall i :: rows <= i < |y| ==> y[i] == before[i])
    && forall t, r :: 0 <= t < |passes| && 0 <= r < rows && passes[t] > 0 && OwnsRow(share, rows, t, r) ==>
      RowIs(ops, false, p, s, x, groups, rows, r, y[r])
  }

  /** One more pass of one thread. */
  lemma PassKeepsUnderway<F>(ops: Ops<F>, p: seq<Lanes16>, s: seq<Byte>, x: seq<F>, groups: nat, rows: nat, share: nat,
                             passes: seq<nat>, t: nat, before: seq<F>, mid: seq<F>, after: seq<F>)
    requires Matching(p, s) && Base(rows, groups) <= |p| && 32 * groups <= |x| && t < |passes|
    requires Underway(ops, p, s, x, groups, rows, share, passes, before, mid)
    requires RowsWritten(ops, false, p, s, x, groups, rows, 0, First(share, t), Last(share, rows, t), mid, after)
    ensures Underway(ops, p, s, x, groups, rows, share, passes[t := passes[t] + 1], before, after)
  {
    assert Last(share, rows, t) <= rows;
    hide RowIs, Base, AreBytes, First, Last;
    forall u, r | 0 <= u < |passes| && 0 <= r < rows && passes[t := passes[t] + 1][u] > 0 && OwnsRow(share, rows, u, r)
      ensures RowIs(ops, false, p, s, x, groups, rows, r, after[r])
    {
      if First(share, t) <= r < Last(share, rows, t) {
      } else {
        assert u != t && after[r] == mid[r];
      }
    }
  }

  function Total(passes: seq<nat>): nat {
    if passes == [] then 0 else Total(passes[..|passes| - 1]) + passes[|passes| - 1]
  }

  lemma {:induction false} TotalGrows(passes: seq<nat>, t: nat)
    requires t < |passes|
    ensures Total(passes[t := passes[t] + 1]) == Total(passes) + 1
  {
    var n := |passes| - 1;
    if t < n {
      TotalGrows(passes[..n], t);
      assert passes[t := passes[t] + 1][..n] == passes[..n][t := passes[t] + 1];
    } else {
      assert passes[t := passes[t] + 1][..n] == passes[..n];
    }
  }

  lemma {:induction false} TotalBounded(passes: seq<nat>, iters: nat)
    requires forall t :: 0 <= t < |passes| ==> passes[t] <= iters
    ensures Total(passes) <= |passes| * iters
  {
    if passes != [] {
      TotalBounded(passes[..|passes| - 1], iters);
    }
  }

  /** One pass of one thread over its rows. */
  method Pass<F>(kernel: Kernel, ops: Ops<F>, p: seq<Lanes16>, scales: Scales, input: seq<F>, ghost x: seq<F>,
                 y: array<F>, rows: nat, groups: nat, share: nat, t: nat)
    requires WeightsOk(p, scales, rows, groups) && InputFor(kernel, input, x, groups) && rows <= y.Length
    modifies y
    ensures RowsWritten(ops, false, p, RawScales(p, scales, rows, groups), x, groups, rows, 0,
                        First(share, t), Last(share, rows, t), old(y[..]), y[..])
  {
    hide RowsWritten, Base, WeightsOk, RawScales, First;
    InputFits(kernel, input, x, groups);
    hide InputFor;
    RunScaled(kernel, ops, p, scales, input, x, y, 0, First(share, t), Last(share, rows, t), rows, groups);
  }

  /** All passes of the created threads, interleaved in any order. */
  method RunThreads<F>(kernel: Kernel, ops: Ops<F>, p: seq<Lanes16>, scales: Scales, input: seq<F>, ghost x: seq<F>,
                       y: array<F>, rows: nat, groups: nat, share: nat, made: nat, iters: nat)
    requires WeightsOk(p, scales, rows, groups) && InputFor(kernel, input, x, groups) && rows <= y.Length
    modifies y
    ensures Underway(ops, p, RawScales(p, scales, rows, groups), x, groups, rows, share, seq(made, _ => iters),
                     old(y[..]), y[..])
    ensures iters == 0 ==> y[..] == old(y[..])
  {
    InputFits(kernel, input, x, groups);
    hide Base, InputFor, RowIs, First, Last, OwnsRow, Total, WeightsOk, RawScales;
    ghost var s := RawScales(p, scales, rows, groups);
    var passes: seq<nat> := seq(made, _ => 0);
    TotalBounded(passes, iters);
    while exists t :: 0 <= t < made && passes[t] < iters
      invariant |passes| == made && forall t :: 0 <= t < made ==> passes[t] <= iters
      invariant Underway(ops, p, s, x, groups, rows, share, passes, old(y[..]), y[..])
      invariant iters == 0 ==> y[..] == old(y[..])
      invariant Total(passes) <= made * iters
      decreases made * iters - Total(passes)
    {
      var t :| 0 <= t < made && passes[t] < iters;
      ghost var mid := y[..];
      Pass(kernel, ops, p, scales, input, x, y, rows, groups, share, t);
      PassKeepsUnderway(ops, p, s, x, groups, rows, share, passes, t, old(y[..]), mid, y[..]);
      TotalGrows(passes, t);
      passes := passes[t := passes[t] + 1];
      TotalBounded(passes, iters);
    }
    assert passes == seq(made, _ => iters);
  }

  /** When every thread was created and made a pass, every row is in place. */
  lemma AllThreadsSuffice<F>(ops: Ops<F>, p: seq<Lanes16>, s: seq<Byte>, x: seq<F>, groups: nat, rows: nat,
                             threads: nat, iters: nat,
                             before: seq<F>, y: seq<F>)
    requires Matching(p, s) && Base(rows, groups) <= |p| && 32 * groups <= |x| && threads > 0 && iters > 0
    requires Underway(ops, p, s, x, groups, rows, Share(rows, threads), seq(threads, _ => iters), before, y)
    ensures RowsWritten(ops, false, p, s, x, groups, rows, 0, 0, rows, before, y)
  {
    hide RowIs, Base, AreBytes, Share, OwnsRow;
    forall r | 0 <= r < rows ensures RowIs(ops, false, p, s, x, groups, rows, r, y[r]) {
      var t := EveryRowOwned(rows, threads, r);
      assert seq(threads, _ => iters)[t] > 0;
    }
  }

  /**
   * `run_gemv_mt_k` and `run_gemv_mt_scale4_k`: for either kernel, raw or compact scales, every thread
   * count, every number of threads that could be created and every interleaving, each row ends up with the
   * term of the one-row kernel on the raw scales.
   */
  method RunGemvMt<F>(kernel: Kernel, ops: Ops<F>, p: seq<Lanes16>, scales: Scales, input: seq<F>, ghost x: seq<F>,
                      y: array<F>, rows: nat, groups: nat, nthreads: int, iters: int)
    requires WeightsOk(p, scales, rows, groups) && InputFor(kernel, input, x, groups) && rows <= y.Length
    modifies y
    ensures 32 * groups <= |x|
    ensures iters > 0 ==>
      RowsWritten(ops, false, p, RawScales(p, scales, rows, groups), x, groups, rows, 0, 0, rows, old(y[..]), y[..])
    ensures iters > 0 ==> RowsOfScales(ops, p, scales, x, groups, rows, 0, 0, rows, old(y[..]), y[..])
    ensures iters <= 0 ==> y[..] == old(y[..])
  {
    InputFits(kernel, input, x, groups);
    hide Base, InputFor, RowIs, Share, AreBytes, WeightsOk, RawScales, RowsOfScales;
    ghost var s := RawScales(p, scales, rows, groups);
    var threads := ClampThreads(nthreads);
    var made: nat :| made <= threads;
    var share := Share(rows, threads);
    var passes: nat := if iters > 0 then iters else 0;
    RunThreads(kernel, ops, p, scales, input, x, y, rows, groups, share, made, passes);
    if made != threads {
      for it := 0 to passes
        invariant forall i :: rows <= i < y.Length ==> y[i] == old(y[i])
        invariant it > 0 ==> RowsWritten(ops, false, p, s, x, groups, rows, 0, 0, rows, old(y[..]), y[..])
        invariant passes == 0 ==> y[..] == old(y[..])
      {
        RunScaled(kernel, ops, p, scales, input, x, y, 0, 0, rows, rows, groups);
      }
    } else if iters > 0 {
      AllThreadsSuffice(ops, p, s, x, groups, rows, threads, passes, old(y[..]), y[..]);
    }
    if iters > 0 { WrittenForScales(ops, p, scales, x, groups, rows, 0, 0, rows, old(y[..]), y[..]); }
  }
}
