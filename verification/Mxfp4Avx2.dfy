/**
 * The 256-bit kernel of tools/fused_gemv.c over an activation permuted once beforehand, and the compact
 * scale planes that both kernels can consume.
 */
module Mxfp4Avx2 {
  import opened Mxfp4Kernels
  import opened Mxfp4Lanes
  import opened Mxfp4Weights

  // ---------------------------------------------------------------- the permuted activation

  /** Position i of a prepared group holds this element. */
  function ElementAt(i: nat): (j: nat)
    requires i < 32
    ensures j < 32
  {
    Prepared(i / 8, i % 8)
  }

  function PermutedX<F>(x: seq<F>): (xp: seq<F>)
    requires |x| % 32 == 0
    ensures |xp| == |x|
  {
    seq(|x|, k requires 0 <= k < |x| => x[k / 32 * 32 + ElementAt(k % 32)])
  }

  /** One 32-element group: four pieces of the low half alternate with four of the high half. */
  method PermuteGroup<F>(x: seq<F>, from: nat, xp: array<F>, to: nat)
    requires from + 32 <= |x| && to + 32 <= xp.Length
    modifies xp
    ensures forall i :: 0 <= i < 32 ==> xp[to + i] == x[from + ElementAt(i)]
    ensures forall k :: 0 <= k < xp.Length && !(to <= k < to + 32) ==> xp[k] == old(xp[k])
  {
    for q := 0 to 4
      invariant forall i :: 0 <= i < 8 * q ==> xp[to + i] == x[from + ElementAt(i)]
      invariant forall k :: 0 <= k < xp.Length && !(to <= k < to + 32) ==> xp[k] == old(xp[k])
    {
      var dst, low, high := to + 8 * q, from + 4 * q, from + 16 + 4 * q;
      xp[dst], xp[dst + 1], xp[dst + 2], xp[dst + 3] := x[low], x[low + 1], x[low + 2], x[low + 3];
      xp[dst + 4], xp[dst + 5], xp[dst + 6], xp[dst + 7] := x[high], x[high + 1], x[high + 2], x[high + 3];
    }
  }

  lemma PermutedAt<F>(x: seq<F>, g: nat, i: nat)
    requires |x| % 32 == 0 && 32 * (g + 1) <= |x| && i < 32
    ensures PermutedX(x)[32 * g + i] == x[32 * g + ElementAt(i)]
  {
    assert (32 * g + i) / 32 == g && (32 * g + i) % 32 == i;
  }

  /** `mxfp4_permute_x_avx2`, into a slot of a larger buffer. */
  method PermuteX<F>(x: seq<F>, xp: array<F>, to: nat)
    requires |x| % 32 == 0 && to + |x| <= xp.Length
    modifies xp
    ensures xp[to..to + |x|] == PermutedX(x)
    ensures forall k :: 0 <= k < xp.Length && !(to <= k < to + |x|) ==> xp[k] == old(xp[k])
  {
    hide PermutedX, ElementAt;
    for g := 0 to |x| / 32
      invariant forall k :: 0 <= k < 32 * g ==> xp[to + k] == PermutedX(x)[k]
      invariant forall k :: 0 <= k < xp.Length && !(to <= k < to + |x|) ==> xp[k] == old(xp[k])
    {
      ghost var before := xp[..];
      PermuteGroup(x, 32 * g, xp, to + 32 * g);
      forall k | 0 <= k < 32 * g + 32 ensures xp[to + k] == PermutedX(x)[k] {
        if k < 32 * g {
          assert xp[to + k] == before[to + k];
        } else {
          PermutedAt(x, g, k - 32 * g);
          assert xp[to + 32 * g + (k - 32 * g)] == x[32 * g + ElementAt(k - 32 * g)];
        }
      }
    }
  }

  // ---------------------------------------------------------------- the kernel

  /** Four fused multiply-adds of eight lanes over the prepared activation. */
  function Avx2Step<F>(ops: Ops<F>, acc: seq<F>, scale: Byte, packed: Lanes16, xp: seq<F>, at: nat): (next: seq<F>)
    requires |acc| == 32 && at + 32 <= |xp|
    ensures |next| == 32
  {
    seq(32, i requires 0 <= i < 32 => ops.fma(acc[i], Avx2Vector(scale, packed, i / 8)[i % 8], xp[at + i]))
  }

  /** The accumulators in prepared order. */
  function PreparedLanes<F>(ops: Ops<F>, p: seq<Lanes16>, s: seq<Byte>, x: seq<F>, base: nat, g: nat): (lanes: seq<F>)
    requires Matching(p, s) && base + g <= |p| && 32 * g <= |x|
    ensures |lanes| == 32
    ensures forall i :: 0 <= i < 32 ==> lanes[i] == Lane(ops, false, p, s, x, base, ElementAt(i), g)
  {
    seq(32, i requires 0 <= i < 32 => Lane(ops, false, p, s, x, base, ElementAt(i), g))
  }

  lemma Avx2StepLane<F>(ops: Ops<F>, acc: seq<F>, scale: Byte, packed: Lanes16, xp: seq<F>, at: nat, i: nat)
    requires |acc| == 32 && at + 32 <= |xp| && AreBytes(packed) && i < 32
    ensures Avx2Step(ops, acc, scale, packed, xp, at)[i]
      == ops.fma(acc[i], ElementWeight(scale, packed, ElementAt(i)), xp[at + i])
  {
    hide Avx2Vector, ElementWeight;
    Avx2Lane(scale, packed, i / 8, i % 8);
  }

  lemma LaneStep<F>(ops: Ops<F>, p: seq<Lanes16>, s: seq<Byte>, x: seq<F>, base: nat, j: nat, g: nat)
    requires Matching(p, s) && base + g < |p| && 32 * (g + 1) <= |x| && j < 32
    ensures Lane(ops, false, p, s, x, base, j, g + 1) ==
      ops.fma(Lane(ops, false, p, s, x, base, j, g), ElementWeight(s[base + g], p[base + g], j), x[32 * g + j])
  {
    hide ElementWeight;
  }

  lemma Avx2AdvancesLane<F>(ops: Ops<F>, p: seq<Lanes16>, s: seq<Byte>, x: seq<F>, base: nat, g: nat, i: nat)
    requires Matching(p, s) && base + g < |p| && 32 * (g + 1) <= |x| && |x| % 32 == 0 && i < 32
    ensures Avx2Step(ops, PreparedLanes(ops, p, s, x, base, g), s[base + g], p[base + g], PermutedX(x), 32 * g)[i]
      == Lane(ops, false, p, s, x, base, ElementAt(i), g + 1)
  {
    assert AreBytes(p[base + g]);
    hide *;
    Avx2StepLane(ops, PreparedLanes(ops, p, s, x, base, g), s[base + g], p[base + g], PermutedX(x), 32 * g, i);
    PermutedAt(x, g, i);
    LaneStep(ops, p, s, x, base, ElementAt(i), g);
  }

  /** One more group is one more step of every accumulator, in prepared order. */
  lemma Avx2Advances<F>(ops: Ops<F>, p: seq<Lanes16>, s: seq<Byte>, x: seq<F>, base: nat, g: nat)
    requires Matching(p, s) && base + g < |p| && 32 * (g + 1) <= |x| && |x| % 32 == 0
    ensures Avx2Step(ops, PreparedLanes(ops, p, s, x, base, g), s[base + g], p[base + g], PermutedX(x), 32 * g)
      == PreparedLanes(ops, p, s, x, base, g + 1)
  {
    hide Avx2Step, PreparedLanes, PermutedX, ElementAt, Lane;
    var next := Avx2Step(ops, PreparedLanes(ops, p, s, x, base, g), s[base + g], p[base + g], PermutedX(x), 32 * g);
    forall i | 0 <= i < 32 ensures next[i] == PreparedLanes(ops, p, s, x, base, g + 1)[i] {
      Avx2AdvancesLane(ops, p, s, x, base, g, i);
    }
  }

  /** `mxfp4_reduce4_avx2`: four eight-lane sums, then the two halves. */
  function Reduce4<F>(ops: Ops<F>, a: seq<F>): F
    requires |a| == 32
  {
    var sum := AddVectors(ops, AddVectors(ops, a[0..8], a[8..16]), AddVectors(ops, a[16..24], a[24..32]));
    var folded := AddVectors(ops, sum[0..4], sum[4..8]);
    ops.across(folded[0], folded[1], folded[2], folded[3])
  }

  lemma Reduce4Lanes<F>(ops: Ops<F>, a: seq<F>, lanes: seq<F>)
    requires |a| == |lanes| == 32 && forall i :: 0 <= i < 32 ==> a[i] == lanes[ElementAt(i)]
    ensures Reduce4(ops, a)
      == ops.across(Tree(ops, lanes, 0), Tree(ops, lanes, 1), Tree(ops, lanes, 2), Tree(ops, lanes, 3))
  {
    hide ElementAt, Tree, PreparedTree, Reduce4;
    forall l | 0 <= l < 4 ensures PreparedTree(ops, a, l) == Tree(ops, lanes, l) {
      TreesAgree(ops, a, lanes, l);
    }
    Reduce4IsPrepared(ops, a);
  }

  lemma ElementParts(q: nat, l: nat)
    requires q < 4 && l < 4
    ensures ElementAt(8 * q + l) == 4 * q + l && ElementAt(8 * q + 4 + l) == 16 + 4 * q + l
  {
  }

  lemma TreesAgree<F>(ops: Ops<F>, a: seq<F>, lanes: seq<F>, l: nat)
    requires |a| == |lanes| == 32 && l < 4 && forall i :: 0 <= i < 32 ==> a[i] == lanes[ElementAt(i)]
    ensures PreparedTree(ops, a, l) == Tree(ops, lanes, l)
  {
    hide ElementAt;
    ElementParts(0, l);
    ElementParts(1, l);
    ElementParts(2, l);
    ElementParts(3, l);
  }

  lemma AddedAt<F>(ops: Ops<F>, a: seq<F>, b: seq<F>, i: nat)
    requires |a| == |b| && i < |a|
    ensures AddVectors(ops, a, b)[i] == ops.add(a[i], b[i])
  {
  }

  lemma SumAt<F>(ops: Ops<F>, a: seq<F>, i: nat)
    requires |a| == 32 && i < 8
    ensures AddVectors(ops, AddVectors(ops, a[0..8], a[8..16]), AddVectors(ops, a[16..24], a[24..32]))[i] ==
      ops.add(ops.add(a[i], a[8 + i]), ops.add(a[16 + i], a[24 + i]))
  {
    hide AddVectors;
    AddedAt(ops, a[0..8], a[8..16], i);
    AddedAt(ops, a[16..24], a[24..32], i);
    AddedAt(ops, AddVectors(ops, a[0..8], a[8..16]), AddVectors(ops, a[16..24], a[24..32]), i);
  }

  lemma FoldedAt<F>(ops: Ops<F>, a: seq<F>, sum: seq<F>, l: nat)
    requires |a| == 32 && l < 4
    requires sum == AddVectors(ops, AddVectors(ops, a[0..8], a[8..16]), AddVectors(ops, a[16..24], a[24..32]))
    ensures AddVectors(ops, sum[0..4], sum[4..8])[l] == PreparedTree(ops, a, l)
  {
    hide AddVectors;
    SumAt(ops, a, l);
    SumAt(ops, a, 4 + l);
    AddedAt(ops, sum[0..4], sum[4..8], l);
  }

  lemma Reduce4IsPrepared<F>(ops: Ops<F>, a: seq<F>)
    requires |a| == 32
    ensures Reduce4(ops, a)
      == ops.across(PreparedTree(ops, a, 0), PreparedTree(ops, a, 1), PreparedTree(ops, a, 2), PreparedTree(ops, a, 3))
  {
    hide AddVectors, PreparedTree;
    var sum := AddVectors(ops, AddVectors(ops, a[0..8], a[8..16]), AddVectors(ops, a[16..24], a[24..32]));
    FoldedAt(ops, a, sum, 0);
    FoldedAt(ops, a, sum, 1);
    FoldedAt(ops, a, sum, 2);
    FoldedAt(ops, a, sum, 3);
  }

  /** The sum that `mxfp4_reduce4_avx2` forms in lane l. */
  function PreparedTree<F>(ops: Ops<F>, a: seq<F>, l: nat): F
    requires |a| == 32 && l < 4
  {
    ops.add(ops.add(ops.add(a[l], a[8 + l]), ops.add(a[16 + l], a[24 + l])),
            ops.add(ops.add(a[4 + l], a[12 + l]), ops.add(a[20 + l], a[28 + l])))
  }

  lemma Reduce4IsRow<F>(ops: Ops<F>, p: seq<Lanes16>, s: seq<Byte>, x: seq<F>, base: nat, groups: nat)
    requires Matching(p, s) && base + groups <= |p| && 32 * groups <= |x|
    ensures Reduce4(ops, PreparedLanes(ops, p, s, x, base, groups)) == RowValue(ops, false, p, s, x, base, groups)
  {
    Reduce4Lanes(ops, PreparedLanes(ops, p, s, x, base, groups), Lanes(ops, false, p, s, x, base, groups));
    hide Reduce4, Tree, Lanes;
  }

  lemma ZeroPrepared<F>(ops: Ops<F>, p: seq<Lanes16>, s: seq<Byte>, x: seq<F>, base: nat)
    requires Matching(p, s) && base <= |p|
    ensures seq(32, _ => ops.zero) == PreparedLanes(ops, p, s, x, base, 0)
  {
  }

  /** The odd last row. */
  method Avx2Row<F>(ops: Ops<F>, p: seq<Lanes16>, s: seq<Byte>, xp: seq<F>, ghost x: seq<F>, base: nat, groups: nat)
    returns (v: F)
    requires Matching(p, s) && base + groups <= |p| && |x| == 32 * groups && xp == PermutedX(x)
    ensures v == RowValue(ops, false, p, s, x, base, groups)
  {
    hide Avx2Step, PreparedLanes, RowValue, Reduce4, PermutedX;
    var acc := seq(32, _ => ops.zero);
    ZeroPrepared(ops, p, s, x, base);
    for g := 0 to groups
      invariant acc == PreparedLanes(ops, p, s, x, base, g)
    {
      Avx2Advances(ops, p, s, x, base, g);
      acc := Avx2Step(ops, acc, s[base + g], p[base + g], xp, 32 * g);
    }
    Reduce4IsRow(ops, p, s, x, base, groups);
    v := Reduce4(ops, acc);
  }

  method Avx2RowPair<F>(ops: Ops<F>, p: seq<Lanes16>, s: seq<Byte>, xp: seq<F>, ghost x: seq<F>, baseA: nat, baseB: nat,
                        groups: nat)
    returns (a: F, b: F)
    requires Matching(p, s) && baseA + groups <= |p| && baseB + groups <= |p| && |x| == 32 * groups
    requires xp == PermutedX(x)
    ensures a == RowValue(ops, false, p, s, x, baseA, groups) && b == RowValue(ops, false, p, s, x, baseB, groups)
  {
    hide Avx2Step, PreparedLanes, RowValue, Reduce4, PermutedX;
    var accA, accB := seq(32, _ => ops.zero), seq(32, _ => ops.zero);
    ZeroPrepared(ops, p, s, x, baseA);
    ZeroPrepared(ops, p, s, x, baseB);
    for g := 0 to groups
      invariant accA == PreparedLanes(ops, p, s, x, baseA, g) && accB == PreparedLanes(ops, p, s, x, baseB, g)
    {
      Avx2Advances(ops, p, s, x, baseA, g);
      Avx2Advances(ops, p, s, x, baseB, g);
      accA := Avx2Step(ops, accA, s[baseA + g], p[baseA + g], xp, 32 * g);
      accB := Avx2Step(ops, accB, s[baseB + g], p[baseB + g], xp, 32 * g);
    }
    Reduce4IsRow(ops, p, s, x, baseA, groups);
    Reduce4IsRow(ops, p, s, x, baseB, groups);
    a, b := Reduce4(ops, accA), Reduce4(ops, accB);
  }

  /** `mxfp4_gemv_rows2_avx2_prepared`. */
  method GemvRows2Avx2<F>(ops: Ops<F>, p: seq<Lanes16>, s: seq<Byte>, xp: seq<F>, ghost x: seq<F>, y: array<F>, at: nat,
                          row0: nat, row1: nat, groups: nat)
    requires Matching(p, s) && Base(row1, groups) <= |p| && |x| == 32 * groups && xp == PermutedX(x)
    requires at + row1 <= y.Length
    modifies y
    ensures RowsWritten(ops, false, p, s, x, groups, row1, at, row0, row1, old(y[..]), y[..])
  {
    hide RowValue, Base, PermutedX;
    var r := row0;
    while r + 1 < row1
      invariant row0 <= r && (r <= row1 || r == row0)
      invariant r <= row1 ==> RowsWritten(ops, false, p, s, x, groups, row1, at, row0, r, old(y[..]), y[..])
      invariant r > row1 ==> y[..] == old(y[..])
    {
      BaseFits(r, row1, groups);
      BaseFits(r + 1, row1, groups);
      var a, b := Avx2RowPair(ops, p, s, xp, x, Base(r, groups), Base(r + 1, groups), groups);
      ghost var mid := y[..];
      NextRowWritten(ops, false, p, s, x, groups, row1, at, row0, r, old(y[..]), mid, a);
      NextRowWritten(ops, false, p, s, x, groups, row1, at, row0, r + 1, old(y[..]), mid[at + r := a], b);
      y[at + r] := a;
      y[at + r + 1] := b;
      assert y[..] == mid[at + r := a][at + r + 1 := b];
      r := r + 2;
    }
    if r < row1 {
      BaseFits(r, row1, groups);
      var v := Avx2Row(ops, p, s, xp, x, Base(r, groups), groups);
      ghost var mid := y[..];
      NextRowWritten(ops, false, p, s, x, groups, row1, at, row0, r, old(y[..]), mid, v);
      y[at + r] := v;
      assert y[..] == mid[at + r := v];
    }
  }
}
