/**
 * Whole matrices in tools/fused_gemv.c: the multiplying reference, the choice of kernel, and compact scale
 * planes.  Each returns the same term per row as the one-row kernel.
 */
module Mxfp4Matrix {
  import opened Mxfp4Avx2
  import opened Mxfp4Kernels
  import opened Mxfp4Lanes
  import opened Mxfp4Weights

  // ---------------------------------------------------------------- the scalar reference

  /** The 32 weights of one group, two from each packed byte. */
  method DequantizeGroup(scale: Byte, packed: Lanes16, weights: array<nat>, at: nat)
    requires AreBytes(packed) && at + 32 <= weights.Length
    modifies weights
    ensures forall j :: 0 <= j < 32 ==> weights[at + j] == WeightOf(true, scale, packed, j)
    ensures forall k :: 0 <= k < weights.Length && !(at <= k < at + 32) ==> weights[k] == old(weights[k])
  {
    for i := 0 to 16
      invariant forall j :: 0 <= j < 2 * i ==> weights[at + j] == WeightOf(true, scale, packed, j)
      invariant forall k :: 0 <= k < weights.Length && !(at <= k < at + 32) ==> weights[k] == old(weights[k])
    {
      hide MultipliedWeight;
      weights[at + 2 * i] := MultipliedWeight(scale, packed[i] % 16);
      weights[at + 2 * i + 1] := MultipliedWeight(scale, packed[i] / 16);
    }
  }

  /** Eight fused multiply-adds of loaded weights. */
  function LoadedStep<F>(ops: Ops<F>, acc: seq<F>, weights: seq<nat>, x: seq<F>, at: nat): (next: seq<F>)
    requires |acc| == 32 && at + 32 <= |x| && at + 32 <= |weights|
    ensures |next| == 32
  {
    seq(32, i requires 0 <= i < 32 => ops.fma(acc[i], weights[at + i], x[at + i]))
  }

  /** The buffer holds the multiplied weights of the first g groups of a row. */
  ghost predicate Dequantized(p: seq<Lanes16>, s: seq<Byte>, base: nat, g: nat, weights: seq<nat>)
    requires Matching(p, s) && base + g <= |p|
  {
    32 * g <= |weights| && forall h, j :: 0 <= h < g && 0 <= j < 32 ==> DequantizedAt(p, s, base, h, j, weights)
  }

  ghost predicate DequantizedAt(p: seq<Lanes16>, s: seq<Byte>, base: nat, h: nat, j: nat, weights: seq<nat>)
    requires Matching(p, s) && base + h < |p| && j < 32 && 32 * (h + 1) <= |weights|
  {
    weights[32 * h + j] == WeightOf(true, s[base + h], p[base + h], j)
  }

  lemma LoadedAdvances<F>(ops: Ops<F>, p: seq<Lanes16>, s: seq<Byte>, x: seq<F>, weights: seq<nat>, base: nat,
                          groups: nat, g: nat)
    requires Matching(p, s) && base + groups <= |p| && g < groups && 32 * groups <= |x|
    requires Dequantized(p, s, base, groups, weights)
    ensures LoadedStep(ops, Lanes(ops, true, p, s, x, base, g), weights, x, 32 * g)
      == Lanes(ops, true, p, s, x, base, g + 1)
  {
    var next := LoadedStep(ops, Lanes(ops, true, p, s, x, base, g), weights, x, 32 * g);
    hide WeightOf;
    forall j | 0 <= j < 32 ensures next[j] == Lanes(ops, true, p, s, x, base, g + 1)[j] {
      assert DequantizedAt(p, s, base, g, j, weights);
    }
  }

  method DequantizeRow(p: seq<Lanes16>, s: seq<Byte>, base: nat, groups: nat, weights: array<nat>)
    requires Matching(p, s) && base + groups <= |p| && weights.Length == 32 * groups
    modifies weights
    ensures Dequantized(p, s, base, groups, weights[..])
  {
    for g := 0 to groups
      invariant Dequantized(p, s, base, g, weights[..])
    {
      hide WeightOf;
      ghost var before := weights[..];
      DequantizeGroup(s[base + g], p[base + g], weights, 32 * g);
      forall h, j | 0 <= h < g + 1 && 0 <= j < 32 ensures DequantizedAt(p, s, base, h, j, weights[..]) {
        if h < g {
          assert DequantizedAt(p, s, base, h, j, before);
        }
      }
    }
  }

  method ReferenceRow<F>(ops: Ops<F>, p: seq<Lanes16>, s: seq<Byte>, x: seq<F>, weights: array<nat>, base: nat,
                         groups: nat) returns (v: F)
    requires Matching(p, s) && base + groups <= |p| && 32 * groups <= |x| && weights.Length == 32 * groups
    modifies weights
    ensures v == RowValue(ops, true, p, s, x, base, groups)
  {
    hide LoadedStep, Lanes, RowValue, Reduce8, Dequantized;
    DequantizeRow(p, s, base, groups, weights);
    var acc := seq(32, _ => ops.zero);
    ZeroLanes(ops, true, p, s, x, base);
    for g := 0 to groups
      invariant acc == Lanes(ops, true, p, s, x, base, g) && Dequantized(p, s, base, groups, weights[..])
    {
      LoadedAdvances(ops, p, s, x, weights[..], base, groups, g);
      acc := LoadedStep(ops, acc, weights[..], x, 32 * g);
    }
    ReducedIsRow(ops, true, p, s, x, base, groups);
    v := Reduce8(ops, acc);
  }

  /** `ref_gemv`. */
  method RefGemv<F>(ops: Ops<F>, p: seq<Lanes16>, s: seq<Byte>, x: seq<F>, y: array<F>, row0: nat, row1: nat,
                    groups: nat)
    requires Matching(p, s) && Base(row1, groups) <= |p| && 32 * groups <= |x| && row1 <= y.Length
    modifies y
    ensures RowsWritten(ops, true, p, s, x, groups, row1, 0, row0, row1, old(y[..]), y[..])
  {
    hide RowValue, Base;
    var weights := new nat[32 * groups];
    var r := row0;
    while r < row1
      invariant row0 <= r && (r <= row1 || r == row0) && fresh(weights)
      invariant r <= row1 ==> RowsWritten(ops, true, p, s, x, groups, row1, 0, row0, r, old(y[..]), y[..])
      invariant r > row1 ==> y[..] == old(y[..])
    {
      BaseFits(r, row1, groups);
      var v := ReferenceRow(ops, p, s, x, weights, Base(r, groups), groups);
      NextRowWritten(ops, true, p, s, x, groups, row1, 0, row0, r, old(y[..]), y[..], v);
      ghost var mid := y[..];
      y[r] := v;
      assert y[..] == mid[r := v];
      r := r + 1;
    }
  }

  // ---------------------------------------------------------------- either kernel

  datatype Kernel = Portable | Avx2

  /** The kernel reads the activation as it is, or permuted beforehand. */
  ghost predicate InputFor<F>(kernel: Kernel, input: seq<F>, x: seq<F>, groups: nat) {
    && 32 * groups <= |x|
    && match kernel
       case Portable => input == x
       case Avx2 => |x| == 32 * groups && input == PermutedX(x)
  }

  lemma InputFits<F>(kernel: Kernel, input: seq<F>, x: seq<F>, groups: nat)
    requires InputFor(kernel, input, x, groups)
    ensures 32 * groups <= |x|
  {
  }

  method RunKernel<F>(kernel: Kernel, ops: Ops<F>, p: seq<Lanes16>, s: seq<Byte>, input: seq<F>, ghost x: seq<F>,
                      y: array<F>, at: nat, row0: nat, row1: nat, groups: nat)
    requires Matching(p, s) && Base(row1, groups) <= |p| && InputFor(kernel, input, x, groups)
    requires at + row1 <= y.Length
    modifies y
    ensures RowsWritten(ops, false, p, s, x, groups, row1, at, row0, row1, old(y[..]), y[..])
  {
    match kernel
    case Portable => GemvRows2(ops, p, s, input, y, at, row0, row1, groups);
    case Avx2 => GemvRows2Avx2(ops, p, s, input, x, y, at, row0, row1, groups);
  }

  // ---------------------------------------------------------------- compact scale planes

  const SCALE_ENTRIES: nat := 16

  /** Bytes of one row of a compact plane: two four-bit table indices in each. */
  function Stride(groups: nat): nat { (groups + 1) / 2 }

  /** The scale byte of group g of the row whose indices begin at byte `at`. */
  function TableScale(s4: seq<Byte>, table: seq<Word>, at: nat, g: nat): Byte
    requires |table| == SCALE_ENTRIES && at + g / 2 < |s4|
  {
    ScaleByte(table, if g % 2 == 0 then s4[at + g / 2] % 16 else s4[at + g / 2] / 16)
  }

  /** The exponent byte of a table entry. */
  function ScaleByte(table: seq<Word>, index: nat): Byte
    requires |table| == SCALE_ENTRIES && index < 16
  {
    table[index] / 0x80_0000 % 0x100
  }

  function ScaleRow(s4: seq<Byte>, table: seq<Word>, at: nat, groups: nat): (row: seq<Byte>)
    requires |table| == SCALE_ENTRIES && at + Stride(groups) <= |s4|
    ensures |row| == groups
  {
    seq(groups, g requires 0 <= g < groups => TableScale(s4, table, at, g))
  }

  /** The raw scale plane that a compact one stands for. */
  function Plane(s4: seq<Byte>, table: seq<Word>, rows: nat, groups: nat): (plane: seq<Byte>)
    requires |table| == SCALE_ENTRIES && Base(rows, Stride(groups)) <= |s4|
    ensures |plane| == Base(rows, groups)
  {
    if rows == 0 then [] else
      BaseFits(rows - 1, rows, Stride(groups));
      assert Base(rows, groups) == Base(rows - 1, groups) + groups;
      Plane(s4, table, rows - 1, groups) + ScaleRow(s4, table, Base(rows - 1, Stride(groups)), groups)
  }

  lemma {:induction false} PlaneRow(s4: seq<Byte>, table: seq<Word>, rows: nat, groups: nat, r: nat)
    requires |table| == SCALE_ENTRIES && Base(rows, Stride(groups)) <= |s4| && r < rows
    ensures Base(r, groups) + groups <= Base(rows, groups) && Base(r, Stride(groups)) + Stride(groups) <= |s4|
    ensures Plane(s4, table, rows, groups)[Base(r, groups)..Base(r, groups) + groups]
      == ScaleRow(s4, table, Base(r, Stride(groups)), groups)
  {
    BaseFits(r, rows, groups);
    BaseFits(r, rows, Stride(groups));
    BaseFits(rows - 1, rows, Stride(groups));
    hide Base, ScaleRow;
    if r < rows - 1 {
      PlaneRow(s4, table, rows - 1, groups, r);
    }
  }

  /** Four-bit indices packed two to a byte, the even one low; behind an odd last one the high half is free. */
  predicate PacksRow(s4: seq<Byte>, at: nat, idx: seq<nat>) {
    && (forall g :: 0 <= g < |idx| ==> idx[g] < 16) && at + (|idx| + 1) / 2 <= |s4|
    && (forall i :: 0 <= i < |idx| / 2 ==> s4[at + i] == idx[2 * i] + 16 * idx[2 * i + 1])
    && (|idx| % 2 == 1 ==> s4[at + |idx| / 2] % 16 == idx[|idx| - 1])
  }

  /** Each index is replaced by the exponent byte of its table entry. */
  predicate Unpacked(table: seq<Word>, idx: seq<nat>, row: seq<Byte>)
    requires |table| == SCALE_ENTRIES
  {
    |row| == |idx| && forall g :: 0 <= g < |idx| ==> idx[g] < 16 && row[g] == table[idx[g]] / 0x80_0000 % 0x100
  }

  lemma ScaleRowIsUnpacked(s4: seq<Byte>, table: seq<Word>, at: nat, idx: seq<nat>)
    requires |table| == SCALE_ENTRIES && PacksRow(s4, at, idx)
    ensures Unpacked(table, idx, ScaleRow(s4, table, at, |idx|))
  {
    forall g | 0 <= g < |idx| ensures TableScale(s4, table, at, g) == ScaleByte(table, idx[g]) {
      if g / 2 < |idx| / 2 {
        assert s4[at + g / 2] == idx[2 * (g / 2)] + 16 * idx[2 * (g / 2) + 1];
      }
    }
  }

  /** The rows of indices are packed one behind the other. */
  predicate PacksPlane(s4: seq<Byte>, groups: nat, idx: seq<seq<nat>>) {
    forall r :: 0 <= r < |idx| ==> |idx[r]| == groups && PacksRow(s4, r * ((groups + 1) / 2), idx[r])
  }

  predicate UnpackedPlane(table: seq<Word>, groups: nat, idx: seq<seq<nat>>, s: seq<Byte>)
    requires |table| == SCALE_ENTRIES
  {
    |s| == |idx| * groups && forall r :: 0 <= r < |idx| ==> UnpackedAt(table, groups, idx[r], s, r * groups)
  }

  predicate UnpackedAt(table: seq<Word>, groups: nat, row: seq<nat>, s: seq<Byte>, at: nat)
    requires |table| == SCALE_ENTRIES
  {
    at + groups <= |s| && Unpacked(table, row, s[at..at + groups])
  }

  lemma UnpackedIsUnique(table: seq<Word>, idx: seq<nat>, a: seq<Byte>, b: seq<Byte>)
    requires |table| == SCALE_ENTRIES && Unpacked(table, idx, a) && Unpacked(table, idx, b)
    ensures a == b
  {
  }

  /** The unpacked rows, one behind the other, are the plane. */
  lemma {:induction false} PlaneIsUnpacked(s4: seq<Byte>, table: seq<Word>, groups: nat, idx: seq<seq<nat>>,
                                           s: seq<Byte>, n: nat)
    requires |table| == SCALE_ENTRIES && PacksPlane(s4, groups, idx) && UnpackedPlane(table, groups, idx, s)
    requires n <= |idx| && Base(n, Stride(groups)) <= |s4| && Base(n, groups) <= |s|
    ensures s[..Base(n, groups)] == Plane(s4, table, n, groups)
  {
    if n > 0 {
      BaseFits(n - 1, n, Stride(groups));
      BaseFits(n - 1, n, groups);
      var at := Base(n - 1, groups);
      assert Base(n, groups) == at + groups;
      hide Unpacked, PacksRow, Plane, ScaleRow;
      PlaneIsUnpacked(s4, table, groups, idx, s, n - 1);
      assert UnpackedAt(table, groups, idx[n - 1], s, (n - 1) * groups);
      ScaleRowIsUnpacked(s4, table, Base(n - 1, Stride(groups)), idx[n - 1]);
      UnpackedIsUnique(table, idx[n - 1], s[at..at + groups],
                       ScaleRow(s4, table, Base(n - 1, Stride(groups)), groups));
      PlaneSnoc(s4, table, n, groups);
      assert s[..Base(n, groups)] == s[..at] + s[at..at + groups];
    }
  }

  lemma PlaneSnoc(s4: seq<Byte>, table: seq<Word>, n: nat, groups: nat)
    requires |table| == SCALE_ENTRIES && n > 0 && Base(n, Stride(groups)) <= |s4|
    requires Base(n - 1, Stride(groups)) + Stride(groups) <= |s4|
    ensures Plane(s4, table, n, groups) ==
      Plane(s4, table, n - 1, groups) + ScaleRow(s4, table, Base(n - 1, Stride(groups)), groups)
  {
    hide ScaleRow;
  }

  /** `mxfp4_expand_scale4_row`. */
  method ExpandScale4Row(s4: seq<Byte>, table: seq<Word>, at: nat, expanded: array<Byte>, to: nat, groups: nat)
    requires |table| == SCALE_ENTRIES && at + Stride(groups) <= |s4| && to + groups <= expanded.Length
    modifies expanded
    ensures expanded[to..to + groups] == ScaleRow(s4, table, at, groups)
    ensures expanded[..to] == old(expanded[..to])
    ensures forall idx: seq<nat> :: |idx| == groups && PacksRow(s4, at, idx) ==>
      Unpacked(table, idx, expanded[to..to + groups])
  {
    hide ScaleByte;
    for g := 0 to groups
      invariant forall k :: 0 <= k < g ==> expanded[to + k] == TableScale(s4, table, at, k)
      invariant expanded[..to] == old(expanded[..to])
    {
      var pair := s4[at + g / 2];
      expanded[to + g] := ScaleByte(table, if g % 2 == 0 then pair % 16 else pair / 16);
    }
    forall idx: seq<nat> | |idx| == groups && PacksRow(s4, at, idx)
      ensures Unpacked(table, idx, ScaleRow(s4, table, at, groups)) {
      ScaleRowIsUnpacked(s4, table, at, idx);
    }
  }

  lemma BaseAdds(r: nat, k: nat, groups: nat)
    ensures Base(r + k, groups) == Base(r, groups) + Base(k, groups)
  {
  }

  /** A block of rows computed from its own slices is those rows of the whole matrix. */
  lemma BlockWritten<F>(ops: Ops<F>, p: seq<Lanes16>, s: seq<Byte>, x: seq<F>, groups: nat, rows: nat, r: nat,
                        count: nat, at: nat, block: seq<Lanes16>, scales: seq<Byte>, before: seq<F>, after: seq<F>)
    requires Matching(p, s) && |p| == Base(rows, groups) && 32 * groups <= |x| && r + count <= rows
    requires Base(r, groups) + Base(count, groups) <= |p|
    requires block == p[Base(r, groups)..Base(r, groups) + Base(count, groups)]
    requires scales == s[Base(r, groups)..Base(r, groups) + Base(count, groups)]
    requires RowsWritten(ops, false, block, scales, x, groups, count, at + r, 0, count, before, after)
    ensures RowsWritten(ops, false, p, s, x, groups, rows, at, r, r + count, before, after)
  {
    hide Base, RowIs;
    forall i | at + r <= i < at + r + count && i < |after|
      ensures RowIs(ops, false, p, s, x, groups, rows, i - at, after[i]) {
      assert RowIs(ops, false, block, scales, x, groups, count, i - at - r, after[i]);
      BlockRow(ops, p, s, x, groups, rows, r, count, block, scales, i - at - r, after[i]);
    }
  }

  lemma SliceOfSlice<T>(all: seq<T>, from: nat, length: nat, at: nat, n: nat)
    requires from + length <= |all| && at + n <= length
    ensures all[from..from + length][at..at + n] == all[from + at..from + at + n]
  {
    var inner, outer := all[from..from + length][at..at + n], all[from + at..from + at + n];
    assert forall i :: 0 <= i < n ==> inner[i] == outer[i];
  }

  lemma BlockRow<F>(ops: Ops<F>, p: seq<Lanes16>, s: seq<Byte>, x: seq<F>, groups: nat, rows: nat, r: nat, count: nat,
                    block: seq<Lanes16>, scales: seq<Byte>, k: nat, v: F)
    requires Matching(p, s) && |p| == Base(rows, groups) && 32 * groups <= |x| && r + count <= rows && k < count
    requires Base(r, groups) + Base(count, groups) <= |p|
    requires block == p[Base(r, groups)..Base(r, groups) + Base(count, groups)]
    requires scales == s[Base(r, groups)..Base(r, groups) + Base(count, groups)]
    requires RowIs(ops, false, block, scales, x, groups, count, k, v)
    ensures RowIs(ops, false, p, s, x, groups, rows, r + k, v)
  {
    hide RowValue, Base, AreBytes;
    BaseFits(k, count, groups);
    BaseFits(r + k, rows, groups);
    BaseAdds(r, k, groups);
    var b, whole := Base(k, groups), Base(r + k, groups);
    SliceOfSlice(p, Base(r, groups), Base(count, groups), b, groups);
    SliceOfSlice(s, Base(r, groups), Base(count, groups), b, groups);
    RowIsLocal(ops, false, block, scales, p, s, x, b, whole, groups);
  }

  /** The plane's slice of two rows is the two rows expanded. */
  lemma PlanePair(s4: seq<Byte>, table: seq<Word>, rows: nat, groups: nat, r: nat)
    requires |table| == SCALE_ENTRIES && Base(rows, Stride(groups)) <= |s4| && r + 1 < rows
    ensures Base(r + 1, Stride(groups)) + Stride(groups) <= |s4| && Base(r, Stride(groups)) + Stride(groups) <= |s4|
    ensures Base(r, groups) + Base(2, groups) <= Base(rows, groups) && Base(2, groups) == 2 * groups
    ensures Plane(s4, table, rows, groups)[Base(r, groups)..Base(r, groups) + Base(2, groups)] ==
      ScaleRow(s4, table, Base(r, Stride(groups)), groups) + ScaleRow(s4, table, Base(r + 1, Stride(groups)), groups)
  {
    PlaneRow(s4, table, rows, groups, r);
    PlaneRow(s4, table, rows, groups, r + 1);
    BaseAdds(r, 1, groups);
    assert Base(1, groups) == groups;
    hide Base, Plane, ScaleRow;
  }

  method ScalePair<F>(kernel: Kernel, ops: Ops<F>, p: seq<Lanes16>, s4: seq<Byte>, table: seq<Word>, input: seq<F>,
                      ghost x: seq<F>, y: array<F>, at: nat, expanded: array<Byte>, r: nat, rows: nat, groups: nat)
    requires |table| == SCALE_ENTRIES && Base(rows, Stride(groups)) <= |s4| && |p| == Base(rows, groups)
      && (forall k :: 0 <= k < |p| ==> AreBytes(p[k]))
    requires InputFor(kernel, input, x, groups) && r + 1 < rows && at + r + 2 <= y.Length
    requires expanded.Length == 2 * groups
    requires (y as object) != (expanded as object)
    modifies y, expanded
    ensures RowsWritten(ops, false, p, Plane(s4, table, rows, groups), x, groups, rows, at, r, r + 2, old(y[..]), y[..])
  {
    hide RowValue, Plane, ScaleRow, InputFor, RowsWritten, Base, PacksRow, Unpacked;
    InputFits(kernel, input, x, groups);
    PlanePair(s4, table, rows, groups, r);
    ExpandScale4Row(s4, table, Base(r, Stride(groups)), expanded, 0, groups);
    ExpandScale4Row(s4, table, Base(r + 1, Stride(groups)), expanded, groups, groups);
    var block, scales := p[Base(r, groups)..Base(r, groups) + Base(2, groups)], expanded[..];
    assert scales == expanded[0..groups] + expanded[groups..groups + groups];
    ghost var before := y[..];
    RunKernel(kernel, ops, block, scales, input, x, y, at + r, 0, 2, groups);
    BlockWritten(ops, p, Plane(s4, table, rows, groups), x, groups, rows, r, 2, at, block, scales, before, y[..]);
  }

  /** `mxfp4_gemv_rows2_scale4_k`: the chosen kernel on two expanded rows at a time. */
  method GemvRows2Scale4<F>(kernel: Kernel, ops: Ops<F>, p: seq<Lanes16>, s4: seq<Byte>, table: seq<Word>,
                            input: seq<F>, ghost x: seq<F>, y: array<F>, at: nat, row0: nat, row1: nat, rows: nat,
                            groups: nat)
    requires |table| == SCALE_ENTRIES && Base(rows, Stride(groups)) <= |s4| && |p| == Base(rows, groups)
      && (forall k :: 0 <= k < |p| ==> AreBytes(p[k]))
    requires InputFor(kernel, input, x, groups) && row1 <= rows && at + row1 <= y.Length
    modifies y
    ensures RowsWritten(ops, false, p, Plane(s4, table, rows, groups), x, groups, rows, at, row0, row1, old(y[..]),
                        y[..])
  {
    hide RowValue, Plane, ScaleRow, InputFor, Base, RowIs, PacksRow, Unpacked;
    InputFits(kernel, input, x, groups);
    ghost var plane := Plane(s4, table, rows, groups);
    var expanded := new Byte[2 * groups];
    var r := row0;
    while r + 1 < row1
      invariant row0 <= r && (r <= row1 || r == row0) && fresh(expanded)
      invariant r <= row1 ==> RowsWritten(ops, false, p, plane, x, groups, rows, at, row0, r, old(y[..]), y[..])
      invariant r > row1 ==> y[..] == old(y[..])
    {
      ghost var mid := y[..];
      ScalePair(kernel, ops, p, s4, table, input, x, y, at, expanded, r, rows, groups);
      WrittenInTurn(ops, false, p, plane, x, groups, rows, at, row0, r, r + 2, old(y[..]), mid, y[..]);
      r := r + 2;
    }
    if r < row1 {
      ghost var mid := y[..];
      ScaleOne(kernel, ops, p, s4, table, input, x, y, at, expanded, r, rows, groups);
      WrittenInTurn(ops, false, p, plane, x, groups, rows, at, row0, r, r + 1, old(y[..]), mid, y[..]);
    }
  }

  lemma OneRow(groups: nat)
    ensures Base(1, groups) == groups
  {
  }

  /** The odd last row. */
  method ScaleOne<F>(kernel: Kernel, ops: Ops<F>, p: seq<Lanes16>, s4: seq<Byte>, table: seq<Word>, input: seq<F>,
                     ghost x: seq<F>, y: array<F>, at: nat, expanded: array<Byte>, r: nat, rows: nat, groups: nat)
    requires |table| == SCALE_ENTRIES && Base(rows, Stride(groups)) <= |s4| && |p| == Base(rows, groups)
      && (forall k :: 0 <= k < |p| ==> AreBytes(p[k]))
    requires InputFor(kernel, input, x, groups) && r < rows && at + r + 1 <= y.Length
    requires expanded.Length == 2 * groups
    requires (y as object) != (expanded as object)
    modifies y, expanded
    ensures RowsWritten(ops, false, p, Plane(s4, table, rows, groups), x, groups, rows, at, r, r + 1, old(y[..]), y[..])
  {
    hide RowValue, Plane, ScaleRow, InputFor, RowsWritten, Base, PacksRow, Unpacked;
    PlaneRow(s4, table, rows, groups, r);
    OneRow(groups);
    InputFits(kernel, input, x, groups);
    ExpandScale4Row(s4, table, Base(r, Stride(groups)), expanded, 0, groups);
    var block, scales := p[Base(r, groups)..Base(r, groups) + Base(1, groups)], expanded[0..0 + groups];
    ghost var before := y[..];
    RunKernel(kernel, ops, block, scales, input, x, y, at + r, 0, 1, groups);
    BlockWritten(ops, p, Plane(s4, table, rows, groups), x, groups, rows, r, 1, at, block, scales, before, y[..]);
  }

  // ---------------------------------------------------------------- either kind of scales

  /** One scale byte for each group, or four-bit indices into a table of sixteen scales. */
  datatype Scales = Raw(bytes: seq<Byte>) | Compact(indices: seq<Byte>, table: seq<Word>)

  /** The packed weights and the scales are those of as many rows. */
  ghost predicate WeightsOk(p: seq<Lanes16>, scales: Scales, rows: nat, groups: nat) {
    && (forall k :: 0 <= k < |p| ==> AreBytes(p[k]))
    && match scales
       case Raw(bytes) => Base(rows, groups) <= |p| == |bytes|
       case Compact(indices, table) =>
         Base(rows, groups) == |p| && |table| == SCALE_ENTRIES && Base(rows, Stride(groups)) <= |indices|
  }

  /** The scale bytes that the scales stand for. */
  ghost function RawScales(p: seq<Lanes16>, scales: Scales, rows: nat, groups: nat): (s: seq<Byte>)
    requires WeightsOk(p, scales, rows, groups)
    ensures Matching(p, s) && Base(rows, groups) <= |p|
  {
    match scales case Raw(bytes) => bytes case Compact(indices, table) => Plane(indices, table, rows, groups)
  }

  /** Scale bytes are the ones given, or those of the indices that the compact plane packs. */
  ghost predicate StandsFor(scales: Scales, rows: nat, groups: nat, s: seq<Byte>) {
    match scales
    case Raw(bytes) => s == bytes
    case Compact(indices, table) => |table| == SCALE_ENTRIES && exists idx: seq<seq<nat>> ::
      |idx| == rows && PacksPlane(indices, groups, idx) && UnpackedPlane(table, groups, idx, s)
  }

  /** The indices that row r of a compact plane packs. */
  function Indices(s4: seq<Byte>, at: nat, groups: nat): (idx: seq<nat>)
    requires at + Stride(groups) <= |s4|
    ensures |idx| == groups
  {
    seq(groups, g requires 0 <= g < groups => if g % 2 == 0 then s4[at + g / 2] % 16 else s4[at + g / 2] / 16)
  }

  lemma IndicesArePacked(s4: seq<Byte>, at: nat, groups: nat)
    requires at + Stride(groups) <= |s4|
    ensures PacksRow(s4, at, Indices(s4, at, groups))
  {
    var idx := Indices(s4, at, groups);
    forall i | 0 <= i < groups / 2 ensures s4[at + i] == idx[2 * i] + 16 * idx[2 * i + 1] {
      assert (2 * i) / 2 == i && (2 * i + 1) / 2 == i;
    }
  }

  /** Every kind of scales stands for the bytes that the kernels use, */
  lemma ScalesStand(p: seq<Lanes16>, scales: Scales, rows: nat, groups: nat)
    requires WeightsOk(p, scales, rows, groups)
    ensures StandsFor(scales, rows, groups, RawScales(p, scales, rows, groups))
  {
    if scales.Compact? {
      var s4, table, s := scales.indices, scales.table, RawScales(p, scales, rows, groups);
      hide Unpacked, PacksRow, Plane, ScaleRow, Indices;
      forall r | 0 <= r < rows ensures Base(r, Stride(groups)) + Stride(groups) <= |s4| {
        BaseFits(r, rows, Stride(groups));
      }
      var idx := seq(rows, r requires 0 <= r < rows => Indices(s4, Base(r, Stride(groups)), groups));
      forall r | 0 <= r < rows
        ensures PacksRow(s4, r * ((groups + 1) / 2), idx[r]) && UnpackedAt(table, groups, idx[r], s, r * groups) {
        IndicesArePacked(s4, Base(r, Stride(groups)), groups);
        ScaleRowIsUnpacked(s4, table, Base(r, Stride(groups)), idx[r]);
        PlaneRow(s4, table, rows, groups, r);
      }
      assert PacksPlane(s4, groups, idx) && UnpackedPlane(table, groups, idx, s);
    }
  }

  /** and for no others. */
  lemma RawScalesStand(p: seq<Lanes16>, scales: Scales, rows: nat, groups: nat, s: seq<Byte>)
    requires WeightsOk(p, scales, rows, groups) && StandsFor(scales, rows, groups, s)
    ensures s == RawScales(p, scales, rows, groups)
  {
    if scales.Compact? {
      var idx: seq<seq<nat>> :| |idx| == rows && PacksPlane(scales.indices, groups, idx)
        && UnpackedPlane(scales.table, groups, idx, s);
      hide PacksPlane, Plane;
      PlaneIsUnpacked(scales.indices, scales.table, groups, idx, s, rows);
      assert s[..Base(rows, groups)] == s;
    }
  }

  /** The rows hold the terms of any scale bytes that the scales stand for. */
  ghost predicate RowsOfScales<F>(ops: Ops<F>, p: seq<Lanes16>, scales: Scales, x: seq<F>, groups: nat, rows: nat,
                                  at: nat, lo: nat, hi: nat, before: seq<F>, after: seq<F>)
    requires 32 * groups <= |x| && Base(rows, groups) <= |p| && hi <= rows
  {
    forall s :: StandsFor(scales, rows, groups, s) ==>
      Matching(p, s) && RowsWritten(ops, false, p, s, x, groups, rows, at, lo, hi, before, after)
  }

  lemma WrittenForScales<F>(ops: Ops<F>, p: seq<Lanes16>, scales: Scales, x: seq<F>, groups: nat, rows: nat,
                            at: nat, lo: nat, hi: nat, before: seq<F>, after: seq<F>)
    requires WeightsOk(p, scales, rows, groups) && 32 * groups <= |x| && Base(rows, groups) <= |p| && hi <= rows
    requires RowsWritten(ops, false, p, RawScales(p, scales, rows, groups), x, groups, rows, at, lo, hi, before, after)
    ensures RowsOfScales(ops, p, scales, x, groups, rows, at, lo, hi, before, after)
  {
    hide RowsWritten, StandsFor, WeightsOk, Base;
    forall s | StandsFor(scales, rows, groups, s) ensures s == RawScales(p, scales, rows, groups) {
      RawScalesStand(p, scales, rows, groups, s);
    }
  }

  lemma BaseGrows(a: nat, b: nat, groups: nat)
    requires a <= b
    ensures Base(a, groups) <= Base(b, groups)
  {
    assert a * groups <= b * groups;
  }

  /** A result computed for fewer rows of the matrix is one computed for all of them. */
  lemma WidenRows<F>(ops: Ops<F>, p: seq<Lanes16>, s: seq<Byte>, x: seq<F>, groups: nat, fewer: nat, rows: nat, at: nat,
                     lo: nat, hi: nat, before: seq<F>, after: seq<F>)
    requires Matching(p, s) && fewer <= rows && Base(fewer, groups) <= |p| && Base(rows, groups) <= |p|
    requires 32 * groups <= |x| && hi <= fewer
    requires RowsWritten(ops, false, p, s, x, groups, fewer, at, lo, hi, before, after)
    ensures RowsWritten(ops, false, p, s, x, groups, rows, at, lo, hi, before, after)
  {
    hide AreBytes, RowValue, Base;
    forall i | at + lo <= i < at + hi && i < |after|
      ensures RowIs(ops, false, p, s, x, groups, rows, i - at, after[i]) {
      assert RowIs(ops, false, p, s, x, groups, fewer, i - at, after[i]);
    }
  }

  /** The kernel a unit or a thread selects, on some rows of a matrix. */
  method RunScaled<F>(kernel: Kernel, ops: Ops<F>, p: seq<Lanes16>, scales: Scales, input: seq<F>, ghost x: seq<F>,
                      y: array<F>, at: nat, row0: nat, row1: nat, rows: nat, groups: nat)
    requires WeightsOk(p, scales, rows, groups) && InputFor(kernel, input, x, groups)
    requires row1 <= rows && at + row1 <= y.Length
    modifies y
    ensures RowsWritten(ops, false, p, RawScales(p, scales, rows, groups), x, groups, rows, at, row0, row1, old(y[..]),
                        y[..])
    ensures RowsOfScales(ops, p, scales, x, groups, rows, at, row0, row1, old(y[..]), y[..])
  {
    hide InputFor, Base, RowsWritten, Plane, RowsOfScales;
    BaseGrows(row1, rows, groups);
    match scales {
      case Raw(bytes) =>
        RunKernel(kernel, ops, p, bytes, input, x, y, at, row0, row1, groups);
        InputFits(kernel, input, x, groups);
        WidenRows(ops, p, bytes, x, groups, row1, rows, at, row0, row1, old(y[..]), y[..]);
      case Compact(indices, table) =>
        GemvRows2Scale4(kernel, ops, p, indices, table, input, x, y, at, row0, row1, rows, groups);
    }
    InputFits(kernel, input, x, groups);
    WrittenForScales(ops, p, scales, x, groups, rows, at, row0, row1, old(y[..]), y[..]);
  }
}
