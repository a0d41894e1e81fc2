/**
 * The matrix-vector kernels of tools/fused_gemv.c.  Fused multiply-add, addition and the sum across a
 * vector are uninterpreted, so two kernels agree exactly when they build the same term; every form of
 * the kernel is shown to build the one term of its row.  Packed bytes come in groups of sixteen and the
 * column count is 32 for each group.
 */
module Mxfp4Kernels {
  import opened Mxfp4Lanes
  import opened Mxfp4Weights

  datatype Ops<!F> = Ops(fma: (F, nat, F) -> F, add: (F, F) -> F, across: (F, F, F, F) -> F, zero: F)

  /** Packed groups and their scales, row after row. */
  predicate Matching(p: seq<Lanes16>, s: seq<Byte>) {
    |p| == |s| && forall k :: 0 <= k < |p| ==> AreBytes(p[k])
  }

  // ---------------------------------------------------------------- the term of a row

  /** The weight of an element, as the kernels have it or as the scalar reference multiplies it. */
  function WeightOf(multiplied: bool, scale: Byte, packed: Lanes16, j: nat): nat
    requires AreBytes(packed) && j < 32
  {
    if multiplied then MultipliedWeight(scale, Nibble(packed, j)) else ElementWeight(scale, packed, j)
  }

  /** The accumulator of element j after the first g groups of the row that begins at group `base`. */
  function Lane<F>(ops: Ops<F>, multiplied: bool, p: seq<Lanes16>, s: seq<Byte>, x: seq<F>, base: nat, j: nat,
                   g: nat): F
    requires Matching(p, s) && base + g <= |p| && 32 * g <= |x| && j < 32
  {
    if g == 0 then ops.zero else
      ops.fma(Lane(ops, multiplied, p, s, x, base, j, g - 1),
              WeightOf(multiplied, s[base + g - 1], p[base + g - 1], j), x[32 * (g - 1) + j])
  }

  /** The balanced sum of the eight accumulators of one vector lane. */
  function Tree<F>(ops: Ops<F>, lanes: seq<F>, l: nat): F
    requires |lanes| == 32 && l < 4
  {
    ops.add(ops.add(ops.add(lanes[l], lanes[4 + l]), ops.add(lanes[8 + l], lanes[12 + l])),
            ops.add(ops.add(lanes[16 + l], lanes[20 + l]), ops.add(lanes[24 + l], lanes[28 + l])))
  }

  function Lanes<F>(ops: Ops<F>, multiplied: bool, p: seq<Lanes16>, s: seq<Byte>, x: seq<F>, base: nat, g: nat)
    : (lanes: seq<F>)
    requires Matching(p, s) && base + g <= |p| && 32 * g <= |x|
    ensures |lanes| == 32 && forall j :: 0 <= j < 32 ==> lanes[j] == Lane(ops, multiplied, p, s, x, base, j, g)
  {
    seq(32, j requires 0 <= j < 32 => Lane(ops, multiplied, p, s, x, base, j, g))
  }

  /** The value of a row. */
  function RowValue<F>(ops: Ops<F>, multiplied: bool, p: seq<Lanes16>, s: seq<Byte>, x: seq<F>, base: nat,
                       groups: nat): F
    requires Matching(p, s) && base + groups <= |p| && 32 * groups <= |x|
  {
    var lanes := Lanes(ops, multiplied, p, s, x, base, groups);
    ops.across(Tree(ops, lanes, 0), Tree(ops, lanes, 1), Tree(ops, lanes, 2), Tree(ops, lanes, 3))
  }

  /** A row's value depends on its own groups alone. */
  lemma {:induction false} LaneIsLocal<F>(ops: Ops<F>, multiplied: bool, p: seq<Lanes16>, s: seq<Byte>,
                                          p': seq<Lanes16>, s': seq<Byte>,
                                          x: seq<F>, base: nat, base': nat, groups: nat, j: nat, g: nat)
    requires Matching(p, s) && base + groups <= |p| && Matching(p', s') && base' + groups <= |p'| && 32 * groups <= |x|
    requires j < 32
    requires p[base..base + groups] == p'[base'..base' + groups] && s[base..base + groups] == s'[base'..base' + groups]
    requires g <= groups
    ensures Lane(ops, multiplied, p, s, x, base, j, g) == Lane(ops, multiplied, p', s', x, base', j, g)
  {
    hide WeightOf, AreBytes;
    if g > 0 {
      LaneIsLocal(ops, multiplied, p, s, p', s', x, base, base', groups, j, g - 1);
      assert p[base..base + groups][g - 1] == p'[base'..base' + groups][g - 1];
      assert s[base..base + groups][g - 1] == s'[base'..base' + groups][g - 1];
    }
  }

  lemma RowIsLocal<F>(ops: Ops<F>, multiplied: bool, p: seq<Lanes16>, s: seq<Byte>, p': seq<Lanes16>, s': seq<Byte>,
                      x: seq<F>, base: nat, base': nat, groups: nat)
    requires Matching(p, s) && base + groups <= |p| && Matching(p', s') && base' + groups <= |p'| && 32 * groups <= |x|
    requires p[base..base + groups] == p'[base'..base' + groups] && s[base..base + groups] == s'[base'..base' + groups]
    ensures RowValue(ops, multiplied, p, s, x, base, groups) == RowValue(ops, multiplied, p', s', x, base', groups)
  {
    forall j | 0 <= j < 32
      ensures Lane(ops, multiplied, p, s, x, base, j, groups) == Lane(ops, multiplied, p', s', x, base', j, groups) {
      LaneIsLocal(ops, multiplied, p, s, p', s', x, base, base', groups, j, groups);
    }
    assert Lanes(ops, multiplied, p, s, x, base, groups) == Lanes(ops, multiplied, p', s', x, base', groups);
  }

  /** With scale bytes in 2 .. 252 the fused weights are the multiplied ones, and so are the rows. */
  lemma {:induction false} FusedLaneIsMultiplied<F>(ops: Ops<F>, p: seq<Lanes16>, s: seq<Byte>, x: seq<F>, base: nat,
                                                    j: nat, g: nat)
    requires Matching(p, s) && base + g <= |p| && 32 * g <= |x| && j < 32
    requires forall k :: base <= k < base + g ==> 2 <= s[k] <= 252
    ensures Lane(ops, false, p, s, x, base, j, g) == Lane(ops, true, p, s, x, base, j, g)
  {
    if g > 0 {
      FusedLaneIsMultiplied(ops, p, s, x, base, j, g - 1);
      TableInRange(s[base + g - 1], Nibble(p[base + g - 1], j));
      hide Weight, MultipliedWeight;
    }
  }

  lemma FusedRowIsMultiplied<F>(ops: Ops<F>, p: seq<Lanes16>, s: seq<Byte>, x: seq<F>, base: nat, groups: nat)
    requires Matching(p, s) && base + groups <= |p| && 32 * groups <= |x|
    requires forall k :: base <= k < base + groups ==> 2 <= s[k] <= 252
    ensures RowValue(ops, false, p, s, x, base, groups) == RowValue(ops, true, p, s, x, base, groups)
  {
    forall j | 0 <= j < 32
      ensures Lane(ops, false, p, s, x, base, j, groups) == Lane(ops, true, p, s, x, base, j, groups) {
      FusedLaneIsMultiplied(ops, p, s, x, base, j, groups);
    }
    assert Lanes(ops, false, p, s, x, base, groups) == Lanes(ops, true, p, s, x, base, groups);
  }

  // ---------------------------------------------------------------- 128-bit kernels

  /** Eight fused multiply-adds of four lanes; vector k holds the lanes 4k .. 4k + 3. */
  function NeonStep<F>(ops: Ops<F>, acc: seq<F>, scale: Byte, packed: Lanes16, x: seq<F>, at: nat): (next: seq<F>)
    requires |acc| == 32 && at + 32 <= |x|
    ensures |next| == 32
  {
    seq(32, i requires 0 <= i < 32 => ops.fma(acc[i], NeonVector(scale, packed, i / 4)[i % 4], x[at + i]))
  }

  lemma NeonStepLane<F>(ops: Ops<F>, acc: seq<F>, scale: Byte, packed: Lanes16, x: seq<F>, at: nat, i: nat)
    requires |acc| == 32 && at + 32 <= |x| && AreBytes(packed) && i < 32
    ensures NeonStep(ops, acc, scale, packed, x, at)[i] == ops.fma(acc[i], ElementWeight(scale, packed, i), x[at + i])
  {
    hide NeonVector, ElementWeight;
    NeonLane(scale, packed, i / 4, i % 4);
  }

  function AddVectors<F>(ops: Ops<F>, a: seq<F>, b: seq<F>): (c: seq<F>)
    requires |a| == |b|
    ensures |c| == |a|
  {
    seq(|a|, i requires 0 <= i < |a| => ops.add(a[i], b[i]))
  }

  /** `reduce8`. */
  function Reduce8<F>(ops: Ops<F>, a: seq<F>): F
    requires |a| == 32
  {
    var b0, b1 := AddVectors(ops, a[0..4], a[4..8]), AddVectors(ops, a[8..12], a[12..16]);
    var b2, b3 := AddVectors(ops, a[16..20], a[20..24]), AddVectors(ops, a[24..28], a[28..32]);
    var c := AddVectors(ops, AddVectors(ops, b0, b1), AddVectors(ops, b2, b3));
    ops.across(c[0], c[1], c[2], c[3])
  }

  lemma Reduce8IsTree<F>(ops: Ops<F>, a: seq<F>)
    requires |a| == 32
    ensures Reduce8(ops, a) == ops.across(Tree(ops, a, 0), Tree(ops, a, 1), Tree(ops, a, 2), Tree(ops, a, 3))
  {
  }

  /** The first group of row r. */
  function Base(r: nat, groups: nat): nat { r * groups }

  lemma BaseFits(r: nat, rows: nat, groups: nat)
    requires r < rows
    ensures Base(r, groups) + groups <= Base(rows, groups)
  {
    assert (r + 1) * groups <= rows * groups;
  }

  /** After `reduce8` the accumulators of all groups are the row's value. */
  lemma ReducedIsRow<F>(ops: Ops<F>, multiplied: bool, p: seq<Lanes16>, s: seq<Byte>, x: seq<F>, base: nat, groups: nat)
    requires Matching(p, s) && base + groups <= |p| && 32 * groups <= |x|
    ensures Reduce8(ops, Lanes(ops, multiplied, p, s, x, base, groups))
      == RowValue(ops, multiplied, p, s, x, base, groups)
  {
    Reduce8IsTree(ops, Lanes(ops, multiplied, p, s, x, base, groups));
    hide Reduce8, Tree, Lanes;
  }

  /** One more group is one more step of every accumulator. */
  lemma NeonAdvances<F>(ops: Ops<F>, p: seq<Lanes16>, s: seq<Byte>, x: seq<F>, base: nat, g: nat)
    requires Matching(p, s) && base + g < |p| && 32 * (g + 1) <= |x|
    ensures NeonStep(ops, Lanes(ops, false, p, s, x, base, g), s[base + g], p[base + g], x, 32 * g)
      == Lanes(ops, false, p, s, x, base, g + 1)
  {
    var acc := Lanes(ops, false, p, s, x, base, g);
    var next := NeonStep(ops, acc, s[base + g], p[base + g], x, 32 * g);
    hide NeonStep, ElementWeight;
    forall j | 0 <= j < 32 ensures next[j] == Lanes(ops, false, p, s, x, base, g + 1)[j] {
      NeonStepLane(ops, acc, s[base + g], p[base + g], x, 32 * g, j);
    }
  }

  lemma ZeroLanes<F>(ops: Ops<F>, multiplied: bool, p: seq<Lanes16>, s: seq<Byte>, x: seq<F>, base: nat)
    requires Matching(p, s) && base <= |p|
    ensures seq(32, _ => ops.zero) == Lanes(ops, multiplied, p, s, x, base, 0)
  {
  }

  /** One row of `mxfp4_gemv_rows`. */
  method NeonRow<F>(ops: Ops<F>, p: seq<Lanes16>, s: seq<Byte>, x: seq<F>, base: nat, groups: nat) returns (v: F)
    requires Matching(p, s) && base + groups <= |p| && 32 * groups <= |x|
    ensures v == RowValue(ops, false, p, s, x, base, groups)
  {
    hide NeonStep, Lanes, RowValue, Reduce8;
    var acc := seq(32, _ => ops.zero);
    ZeroLanes(ops, false, p, s, x, base);
    for g := 0 to groups
      invariant acc == Lanes(ops, false, p, s, x, base, g)
    {
      NeonAdvances(ops, p, s, x, base, g);
      acc := NeonStep(ops, acc, s[base + g], p[base + g], x, 32 * g);
    }
    ReducedIsRow(ops, false, p, s, x, base, groups);
    v := Reduce8(ops, acc);
  }

  /** Two rows in one pass over the activation. */
  method NeonRowPair<F>(ops: Ops<F>, p: seq<Lanes16>, s: seq<Byte>, x: seq<F>, baseA: nat, baseB: nat, groups: nat)
    returns (a: F, b: F)
    requires Matching(p, s) && baseA + groups <= |p| && baseB + groups <= |p| && 32 * groups <= |x|
    ensures a == RowValue(ops, false, p, s, x, baseA, groups) && b == RowValue(ops, false, p, s, x, baseB, groups)
  {
    hide NeonStep, Lanes, RowValue, Reduce8;
    var accA, accB := seq(32, _ => ops.zero), seq(32, _ => ops.zero);
    ZeroLanes(ops, false, p, s, x, baseA);
    ZeroLanes(ops, false, p, s, x, baseB);
    for g := 0 to groups
      invariant accA == Lanes(ops, false, p, s, x, baseA, g) && accB == Lanes(ops, false, p, s, x, baseB, g)
    {
      NeonAdvances(ops, p, s, x, baseA, g);
      NeonAdvances(ops, p, s, x, baseB, g);
      accA := NeonStep(ops, accA, s[baseA + g], p[baseA + g], x, 32 * g);
      accB := NeonStep(ops, accB, s[baseB + g], p[baseB + g], x, 32 * g);
    }
    ReducedIsRow(ops, false, p, s, x, baseA, groups);
    ReducedIsRow(ops, false, p, s, x, baseB, groups);
    a, b := Reduce8(ops, accA), Reduce8(ops, accB);
  }

  ghost predicate RowIs<F>(ops: Ops<F>, multiplied: bool, p: seq<Lanes16>, s: seq<Byte>, x: seq<F>, groups: nat,
                           rows: nat, r: nat, v: F)
    requires Matching(p, s) && Base(rows, groups) <= |p| && 32 * groups <= |x| && r < rows
  {
    BaseFits(r, rows, groups);
    v == RowValue(ops, multiplied, p, s, x, Base(r, groups), groups)
  }

  /** The rows from lo below hi are in the output, which begins at position `at`, and nothing else has changed. */
  ghost predicate RowsWritten<F>(ops: Ops<F>, multiplied: bool, p: seq<Lanes16>, s: seq<Byte>, x: seq<F>, groups: nat,
                                 rows: nat,
                                 at: nat, lo: nat, hi: nat, before: seq<F>, after: seq<F>)
    requires Matching(p, s) && Base(rows, groups) <= |p| && 32 * groups <= |x| && hi <= rows
  {
    && |after| == |before|
    && forall i :: 0 <= i < |after| ==>
      if at + lo <= i < at + hi then RowIs(ops, multiplied, p, s, x, groups, rows, i - at, after[i])
        else after[i] == before[i]
  }

  lemma NextRowWritten<F>(ops: Ops<F>, multiplied: bool, p: seq<Lanes16>, s: seq<Byte>, x: seq<F>, groups: nat,
                          rows: nat,
                          at: nat, lo: nat, hi: nat, before: seq<F>, mid: seq<F>, v: F)
    requires Matching(p, s) && Base(rows, groups) <= |p| && 32 * groups <= |x| && lo <= hi < rows && at + hi < |mid|
    requires RowsWritten(ops, multiplied, p, s, x, groups, rows, at, lo, hi, before, mid)
    requires RowIs(ops, multiplied, p, s, x, groups, rows, hi, v)
    ensures RowsWritten(ops, multiplied, p, s, x, groups, rows, at, lo, hi + 1, before, mid[at + hi := v])
  {
    hide RowIs;
  }

  /** `mxfp4_gemv_rows`. */
  method GemvRows<F>(ops: Ops<F>, p: seq<Lanes16>, s: seq<Byte>, x: seq<F>, y: array<F>, at: nat, row0: nat, row1: nat,
                     groups: nat)
    requires Matching(p, s) && Base(row1, groups) <= |p| && 32 * groups <= |x| && at + row1 <= y.Length
    modifies y
    ensures RowsWritten(ops, false, p, s, x, groups, row1, at, row0, row1, old(y[..]), y[..])
  {
    hide RowValue, Base;
    var r := row0;
    while r < row1
      invariant row0 <= r && (r <= row1 || r == row0)
      invariant r <= row1 ==> RowsWritten(ops, false, p, s, x, groups, row1, at, row0, r, old(y[..]), y[..])
      invariant r > row1 ==> y[..] == old(y[..])
    {
      BaseFits(r, row1, groups);
      var v := NeonRow(ops, p, s, x, Base(r, groups), groups);
      NextRowWritten(ops, false, p, s, x, groups, row1, at, row0, r, old(y[..]), y[..], v);
      ghost var mid := y[..];
      y[at + r] := v;
      assert y[..] == mid[at + r := v];
      r := r + 1;
    }
  }

  /** `mxfp4_gemv_rows2`: rows in pairs, a last odd row by the one-row kernel. */
  method GemvRows2<F>(ops: Ops<F>, p: seq<Lanes16>, s: seq<Byte>, x: seq<F>, y: array<F>, at: nat, row0: nat, row1: nat,
                      groups: nat)
    requires Matching(p, s) && Base(row1, groups) <= |p| && 32 * groups <= |x| && at + row1 <= y.Length
    modifies y
    ensures RowsWritten(ops, false, p, s, x, groups, row1, at, row0, row1, old(y[..]), y[..])
  {
    hide RowValue, Base;
    var r := row0;
    while r + 1 < row1
      invariant row0 <= r && (r <= row1 || r == row0)
      invariant r <= row1 ==> RowsWritten(ops, false, p, s, x, groups, row1, at, row0, r, old(y[..]), y[..])
      invariant r > row1 ==> y[..] == old(y[..])
    {
      BaseFits(r, row1, groups);
      BaseFits(r + 1, row1, groups);
      var a, b := NeonRowPair(ops, p, s, x, Base(r, groups), Base(r + 1, groups), groups);
      ghost var mid := y[..];
      NextRowWritten(ops, false, p, s, x, groups, row1, at, row0, r, old(y[..]), mid, a);
      NextRowWritten(ops, false, p, s, x, groups, row1, at, row0, r + 1, old(y[..]), mid[at + r := a], b);
      y[at + r] := a;
      y[at + r + 1] := b;
      assert y[..] == mid[at + r := a][at + r + 1 := b];
      r := r + 2;
    }
    if r < row1 {
      ghost var mid := y[..];
      GemvRows(ops, p, s, x, y, at, r, row1, groups);
      WrittenInTurn(ops, false, p, s, x, groups, row1, at, row0, r, row1, old(y[..]), mid, y[..]);
    }
  }

  lemma WrittenInTurn<F>(ops: Ops<F>, multiplied: bool, p: seq<Lanes16>, s: seq<Byte>, x: seq<F>, groups: nat,
                         rows: nat,
                         at: nat, lo: nat, mid: nat, hi: nat, before: seq<F>, between: seq<F>, after: seq<F>)
    requires Matching(p, s) && Base(rows, groups) <= |p| && 32 * groups <= |x| && lo <= mid <= hi <= rows
    requires RowsWritten(ops, multiplied, p, s, x, groups, rows, at, lo, mid, before, between)
    requires RowsWritten(ops, multiplied, p, s, x, groups, rows, at, mid, hi, between, after)
    ensures RowsWritten(ops, multiplied, p, s, x, groups, rows, at, lo, hi, before, after)
  {
    hide RowIs;
  }
}
