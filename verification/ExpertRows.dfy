/**
 * Expert-major execution of a tile of routed rows in native/provider_gate/provider_cuda_moe.cpp: the
 * routed positions of one expert are gathered over all rows, run as one batch and copied back, and a
 * reduction then adds each row's slots in route order.
 */
module ExpertRows {

  const TOP_K: nat := 16

  /** One routed row of a tile. */
  datatype Row<V, W> = Row(layer: nat, input: V, experts: seq<nat>, weights: seq<W>)

  /** What the device computes, as uninterpreted functions of single rows. */
  datatype Ops<!Bytes, !V, !W> = Ops(kernel: (Bytes, V) -> V, addcmul: (V, V, W) -> V, zero: V)

  predicate WellShaped<V, W>(rows: seq<Row<V, W>>) {
    forall i :: 0 <= i < |rows| ==> |rows[i].experts| == TOP_K && |rows[i].weights| == TOP_K
  }

  /** The output of the expert in one slot of one row. */
  function SlotOutput<Bytes, V, W>(ops: Ops<Bytes, V, W>, authority: (nat, nat) -> Bytes, row: Row<V, W>, slot: nat): V
    requires slot < |row.experts|
  {
    ops.kernel(authority(row.layer, row.experts[slot]), row.input)
  }

  /** The routed output of one row on its own: its experts one after the other in route order. */
  function RowAlone<Bytes, V, W>(ops: Ops<Bytes, V, W>, authority: (nat, nat) -> Bytes, row: Row<V, W>, slots: nat): V
    requires slots <= |row.experts| && slots <= |row.weights|
  {
    if slots == 0 then ops.zero else
      ops.addcmul(RowAlone(ops, authority, row, slots - 1), SlotOutput(ops, authority, row, slots - 1),
                  row.weights[slots - 1])
  }

  /** Weighted outputs added to `acc` from the left. */
  function FoldLeft<Bytes, V, W>(ops: Ops<Bytes, V, W>, acc: V, outputs: seq<V>, weights: seq<W>): V
    requires |outputs| == |weights|
  {
    if outputs == [] then acc else
      FoldLeft(ops, ops.addcmul(acc, outputs[0], weights[0]), outputs[1..], weights[1..])
  }

  /** Slot s contributes the kernel of its own expert's bytes on the row's input, under weight s. */
  function RouteSum<Bytes, V, W>(ops: Ops<Bytes, V, W>, authority: (nat, nat) -> Bytes, row: Row<V, W>): V
    requires |row.experts| == |row.weights|
  {
    FoldLeft(ops, ops.zero, ExpertOutputs(ops, authority, row), row.weights)
  }

  function ExpertOutputs<Bytes, V, W>(ops: Ops<Bytes, V, W>, authority: (nat, nat) -> Bytes, row: Row<V, W>)
    : (outputs: seq<V>)
    ensures |outputs| == |row.experts|
  {
    seq(|row.experts|, s requires 0 <= s < |row.experts| => ops.kernel(authority(row.layer, row.experts[s]), row.input))
  }

  lemma {:induction false} FoldSnoc<Bytes, V, W>(ops: Ops<Bytes, V, W>, acc: V, outputs: seq<V>, weights: seq<W>,
                                                v: V, w: W)
    requires |outputs| == |weights|
    ensures FoldLeft(ops, acc, outputs + [v], weights + [w]) == ops.addcmul(FoldLeft(ops, acc, outputs, weights), v, w)
  {
    if outputs != [] {
      FoldSnoc(ops, ops.addcmul(acc, outputs[0], weights[0]), outputs[1..], weights[1..], v, w);
      assert (outputs + [v])[1..] == outputs[1..] + [v] && (weights + [w])[1..] == weights[1..] + [w];
    } else {
      assert (outputs + [v])[1..] == [] && (weights + [w])[1..] == [];
    }
  }

  lemma {:induction false} SlotsFold<Bytes, V, W>(ops: Ops<Bytes, V, W>, authority: (nat, nat) -> Bytes, row: Row<V, W>,
                                                  outputs: seq<V>, n: nat)
    requires |outputs| == |row.experts| == |row.weights| && n <= |outputs|
    requires forall s :: 0 <= s < |outputs| ==> outputs[s] == SlotOutput(ops, authority, row, s)
    ensures RowAlone(ops, authority, row, n) == FoldLeft(ops, ops.zero, outputs[..n], row.weights[..n])
  {
    if n > 0 {
      SlotsFold(ops, authority, row, outputs, n - 1);
      FoldSnoc(ops, ops.zero, outputs[..n - 1], row.weights[..n - 1], outputs[n - 1], row.weights[n - 1]);
      assert outputs[..n] == outputs[..n - 1] + [outputs[n - 1]];
      assert row.weights[..n] == row.weights[..n - 1] + [row.weights[n - 1]];
    }
  }

  /** A row on its own is the left fold over its slots, each expert under its own weight. */
  lemma RowAloneIsSum<Bytes, V, W>(ops: Ops<Bytes, V, W>, authority: (nat, nat) -> Bytes, row: Row<V, W>)
    requires |row.experts| == |row.weights|
    ensures RowAlone(ops, authority, row, |row.experts|) == RouteSum(ops, authority, row)
  {
    var n, outputs := |row.experts|, ExpertOutputs(ops, authority, row);
    SlotsFold(ops, authority, row, outputs, n);
    assert outputs[..n] == outputs && row.weights[..n] == row.weights;
  }

  /** Flat position f is slot f % TOP_K of row f / TOP_K. */
  function RoutedAt<V, W>(rows: seq<Row<V, W>>, f: nat): nat
    requires WellShaped(rows) && f < |rows| * TOP_K
  {
    rows[f / TOP_K].experts[f % TOP_K]
  }

  predicate IsRouted<V, W>(rows: seq<Row<V, W>>, expert: nat)
    requires WellShaped(rows)
  {
    exists f :: 0 <= f < |rows| * TOP_K && RoutedAt(rows, f) == expert
  }

  /** The list holds, in order, the positions below the bound at which the expert is routed. */
  ghost predicate GatheredUpTo<V, W>(rows: seq<Row<V, W>>, expert: nat, routes: seq<nat>, bound: nat)
    requires WellShaped(rows)
  {
    && (forall i, j :: 0 <= i < j < |routes| ==> routes[i] < routes[j])
    && (forall i :: 0 <= i < |routes| ==> routes[i] < bound)
    && bound <= |rows| * TOP_K
    && (forall i :: 0 <= i < |routes| ==> RoutedAt(rows, routes[i]) == expert)
    && (forall f :: 0 <= f < bound && RoutedAt(rows, f) == expert ==> f in routes)
  }

  /** Collect the rows and the flat positions at which an expert is routed. */
  method Gather<V, W>(rows: seq<Row<V, W>>, expert: nat) returns (tokens: seq<nat>, routes: seq<nat>)
    requires WellShaped(rows)
    ensures GatheredUpTo(rows, expert, routes, |rows| * TOP_K)
    ensures |tokens| == |routes| && forall i :: 0 <= i < |routes| ==> tokens[i] == routes[i] / TOP_K
  {
    tokens, routes := [], [];
    for row := 0 to |rows|
      invariant GatheredUpTo(rows, expert, routes, row * TOP_K)
      invariant |tokens| == |routes| && forall i :: 0 <= i < |routes| ==> tokens[i] == routes[i] / TOP_K
    {
      for edge := 0 to TOP_K
        invariant GatheredUpTo(rows, expert, routes, row * TOP_K + edge)
        invariant |tokens| == |routes| && forall i :: 0 <= i < |routes| ==> tokens[i] == routes[i] / TOP_K
      {
        FlatPosition(row, edge);
        if rows[row].experts[edge] == expert {
          tokens := tokens + [row];
          routes := routes + [row * TOP_K + edge];
        }
      }
    }
  }

  lemma FlatPosition(row: nat, edge: nat)
    requires edge < TOP_K
    ensures (row * TOP_K + edge) / TOP_K == row && (row * TOP_K + edge) % TOP_K == edge
  {
  }

  /** One batch of one expert: select the token rows, run them, copy the results to their positions. */
  method RunBatch<Bytes, V, W>(ops: Ops<Bytes, V, W>, bytes: Bytes, rows: seq<Row<V, W>>, tokens: seq<nat>,
                               routes: seq<nat>,
                               outputs: array<V>)
    requires |tokens| == |routes| && outputs.Length == |rows| * TOP_K
    requires forall i :: 0 <= i < |routes| ==> routes[i] < outputs.Length && tokens[i] == routes[i] / TOP_K
    requires forall i, j :: 0 <= i < j < |routes| ==> routes[i] < routes[j]
    modifies outputs
    ensures forall f :: 0 <= f < outputs.Length ==>
      outputs[f] == if f in routes then ops.kernel(bytes, rows[f / TOP_K].input) else old(outputs[f])
  {
    for b := 0 to |routes|
      invariant forall f :: 0 <= f < outputs.Length ==>
        outputs[f] == if f in routes[..b] then ops.kernel(bytes, rows[f / TOP_K].input) else old(outputs[f])
    {
      outputs[routes[b]] := ops.kernel(bytes, rows[tokens[b]].input);
      assert forall f :: f in routes[..b + 1] <==> f in routes[..b] || f == routes[b];
    }
    assert routes[..|routes|] == routes;
  }

  /** Starting from zero, add the weighted slots of every row, slot by slot over all rows at once. */
  method OrderedRouteReduce<Bytes, V, W>(ops: Ops<Bytes, V, W>, ghost authority: (nat, nat) -> Bytes,
                                         rows: seq<Row<V, W>>,
                                         outputs: array<V>) returns (reduced: seq<V>)
    requires WellShaped(rows) && outputs.Length == |rows| * TOP_K
    requires forall f :: 0 <= f < outputs.Length ==>
      outputs[f] == SlotOutput(ops, authority, rows[f / TOP_K], f % TOP_K)
    ensures |reduced| == |rows|
    ensures forall i :: 0 <= i < |rows| ==> reduced[i] == RowAlone(ops, authority, rows[i], TOP_K)
  {
    reduced := seq(|rows|, _ => ops.zero);
    for slot := 0 to TOP_K
      invariant |reduced| == |rows|
      invariant forall i :: 0 <= i < |rows| ==> reduced[i] == RowAlone(ops, authority, rows[i], slot)
    {
      ghost var was := reduced;
      for i := 0 to |rows|
        invariant |reduced| == |rows|
        invariant forall j :: 0 <= j < i ==> reduced[j] == RowAlone(ops, authority, rows[j], slot + 1)
        invariant forall j :: i <= j < |rows| ==> reduced[j] == was[j]
      {
        FlatPosition(i, slot);
        reduced := reduced[i := ops.addcmul(reduced[i], outputs[i * TOP_K + slot], rows[i].weights[slot])];
      }
    }
  }

  lemma AscendingCountsOnce(list: seq<nat>, f: nat)
    requires forall i, j :: 0 <= i < j < |list| ==> list[i] < list[j]
    ensures multiset(list)[f] == if f in list then 1 else 0
  {
    if f in list {
      var i :| 0 <= i < |list| && list[i] == f;
      assert list == list[..i] + [f] + list[i + 1..];
      assert f !in list[..i] && f !in list[i + 1..];
    }
  }

  /** The batch of an expert holds each of its positions once and no other position. */
  lemma BatchCounts<V, W>(rows: seq<Row<V, W>>, expert: nat, routes: seq<nat>, f: nat)
    requires WellShaped(rows) && GatheredUpTo(rows, expert, routes, |rows| * TOP_K)
    ensures multiset(routes)[f] == if f < |rows| * TOP_K && RoutedAt(rows, f) == expert then 1 else 0
  {
    AscendingCountsOnce(routes, f);
  }
}
