/**
 * The batched entry points of tools/fused_gemv_batch.c on top of the work units: a batch of matrices
 * over one buffer, and `mxfp4_moe_expert_set`, which runs gate and up projections, the SiTU activation
 * and the down projections of all routed experts through one scratch buffer and combines them.  A
 * schedule is the order in which the pool's units happen to run; a unit is one step.
 */
module BatchExperts {
  import opened BatchActivations
  import opened BatchUnits
  import opened Mxfp4Avx2
  import opened Mxfp4Kernels
  import opened Mxfp4Lanes
  import opened Mxfp4Matrix
  import opened Mxfp4Weights

  /** Where a matrix finds its activation: outside the buffer or inside it. */
  datatype Input<F> = Outside(address: nat, x: seq<F>) | Inside(from: nat)

  /** A matrix of a batch; its output begins at position `at` of the buffer. */
  datatype Matrix<F> = Matrix(p: seq<Lanes16>, scales: Scales, input: Input<F>, cols: nat, at: nat, rows: nat)

  function Groups<F>(m: Matrix<F>): nat { m.cols / 32 }

  ghost predicate MatrixOk<F>(m: Matrix<F>, length: nat) {
    && WeightsOk(m.p, m.scales, m.rows, Groups(m)) && m.at + m.rows <= length
    && match m.input case Outside(_, x) => |x| == m.cols case Inside(from) => from + m.cols <= length
  }

  /** The scale bytes of a matrix. */
  ghost function RawOf<F>(m: Matrix<F>): (s: seq<Byte>)
    requires WeightsOk(m.p, m.scales, m.rows, Groups(m))
    ensures Matching(m.p, s) && Base(m.rows, Groups(m)) <= |m.p|
  {
    RawScales(m.p, m.scales, m.rows, Groups(m))
  }

  function Activated<F>(m: Matrix<F>, buffer: seq<F>): (x: seq<F>)
    requires m.input.Inside? ==> m.input.from + m.cols <= |buffer|
  {
    match m.input case Outside(_, x) => x case Inside(from) => buffer[from..from + m.cols]
  }

  /** No output overlaps another output or any input. */
  predicate Independent<F>(ms: seq<Matrix<F>>) {
    && (forall i, j :: 0 <= i < |ms| && 0 <= j < |ms| && i != j ==> Apart(ms[i].at, ms[i].rows, ms[j].at, ms[j].rows))
    && (forall i, j :: 0 <= i < |ms| && 0 <= j < |ms| && ms[j].input.Inside? ==>
      Apart(ms[i].at, ms[i].rows, ms[j].input.from, ms[j].cols))
  }

  /** One address holds one activation. */
  ghost predicate SameAtAddress<F>(ms: seq<Matrix<F>>) {
    forall i, j :: 0 <= i < |ms| && 0 <= j < |ms| && NameOf(ms[i]) == NameOf(ms[j]) ==> ms[i].input == ms[j].input
  }

  /** How the batch names a matrix's activation. */
  function NameOf<F>(m: Matrix<F>): Activation {
    Activation(match m.input case Outside(address, _) => Elsewhere(address) case Inside(from) => InBuffer(from), m.cols)
  }

  ghost predicate BatchOk<F>(ms: seq<Matrix<F>>, length: nat) {
    Independent(ms) && SameAtAddress(ms) && forall m :: 0 <= m < |ms| ==> MatrixOk(ms[m], length)
  }

  function Rows<F>(ms: seq<Matrix<F>>): (rows: seq<nat>)
    ensures |rows| == |ms| && forall m :: 0 <= m < |ms| ==> rows[m] == ms[m].rows
  {
    seq(|ms|, m requires 0 <= m < |ms| => ms[m].rows)
  }

  /** The value is the one-row kernel's for row r, on the activation as it was before the batch. */
  ghost predicate RowDone<F>(ops: Ops<F>, m: Matrix<F>, before: seq<F>, r: nat, v: F)
    requires MatrixOk(m, |before|) && r < m.rows
  {
    RowIs(ops, false, m.p, RawOf(m), Activated(m, before), Groups(m), m.rows, r, v)
  }

  /** The position is no matrix's output. */
  predicate Outlying<F>(ms: seq<Matrix<F>>, i: int) {
    forall m :: 0 <= m < |ms| ==> !(ms[m].at <= i < ms[m].at + ms[m].rows)
  }

  predicate UnitIs<F>(ms: seq<Matrix<F>>, m: nat, r: nat, u: nat)
    requires m < |ms|
  {
    Computes(Rows(ms), u, m, r)
  }

  /** Row r of matrix m is done if its unit has run, and untouched otherwise. */
  ghost predicate RowState<F>(ops: Ops<F>, ms: seq<Matrix<F>>, before: seq<F>, m: nat, r: nat, ran: bool, after: seq<F>)
    requires m < |ms| && MatrixOk(ms[m], |before|) && r < ms[m].rows && |after| == |before|
  {
    if ran then RowDone(ops, ms[m], before, r, after[ms[m].at + r]) else after[ms[m].at + r] == before[ms[m].at + r]
  }

  ghost predicate AllRows<F>(ops: Ops<F>, ms: seq<Matrix<F>>, before: seq<F>, ran: seq<nat>, after: seq<F>)
    requires BatchOk(ms, |before|)
  {
    && |after| == |before|
    && (forall m, r, u :: 0 <= m < |ms| && 0 <= r < ms[m].rows && UnitIs(ms, m, r, u) ==>
      RowState(ops, ms, before, m, r, u in ran, after))
    && forall i :: 0 <= i < |after| && Outlying(ms, i) ==> after[i] == before[i]
  }

  /** Every row of every matrix is in its output, and nothing else has changed. */
  ghost predicate BatchDone<F>(ops: Ops<F>, ms: seq<Matrix<F>>, before: seq<F>, after: seq<F>)
    requires BatchOk(ms, |before|)
  {
    && |after| == |before|
    && (forall m, r :: 0 <= m < |ms| && 0 <= r < ms[m].rows ==> RowState(ops, ms, before, m, r, true, after))
    && forall i :: 0 <= i < |after| && Outlying(ms, i) ==> after[i] == before[i]
  }

  /** Inputs lie outside all outputs, so they are what they were. */
  lemma ActivationStays<F>(ops: Ops<F>, ms: seq<Matrix<F>>, before: seq<F>, ran: seq<nat>, now: seq<F>, m: nat)
    requires BatchOk(ms, |before|) && AllRows(ops, ms, before, ran, now) && m < |ms|
    ensures Activated(ms[m], now) == Activated(ms[m], before)
  {
    hide RowState;
    if ms[m].input.Inside? {
      var from := ms[m].input.from;
      forall i | from <= i < from + ms[m].cols ensures now[i] == before[i] {
        forall k | 0 <= k < |ms| ensures !(ms[k].at <= i < ms[k].at + ms[k].rows) {
          assert Apart(ms[k].at, ms[k].rows, from, ms[m].cols);
        }
        assert Outlying(ms, i);
      }
    }
  }

  /** Running one more unit does its rows and touches no others. */
  lemma UnitAdvances<F>(ops: Ops<F>, ms: seq<Matrix<F>>, before: seq<F>, ran: seq<nat>, mid: seq<F>, after: seq<F>,
                        u: nat, m: nat, r0: nat, r1: nat)
    requires BatchOk(ms, |before|) && AllRows(ops, ms, before, ran, mid) && m < |ms| && r0 < r1 <= ms[m].rows
    requires |Activated(ms[m], before)| == ms[m].cols
    requires forall k, r :: 0 <= k < |ms| && 0 <= r ==> (UnitIs(ms, k, r, u) <==> k == m && r0 <= r < r1)
    requires RowsWritten(ops, false, ms[m].p, RawOf(ms[m]), Activated(ms[m], before), Groups(ms[m]), ms[m].rows,
                         ms[m].at, r0, r1, mid, after)
    ensures AllRows(ops, ms, before, ran + [u], after)
  {
    hide RowIs, Matching, UnitIs, Activated;
    forall k, r, v | 0 <= k < |ms| && 0 <= r < ms[k].rows && UnitIs(ms, k, r, v)
      ensures RowState(ops, ms, before, k, r, v in ran + [u], after)
    {
      UnitOnRow(ops, ms, before, ran, mid, after, u, m, r0, r1, k, r, v);
    }
    forall i | 0 <= i < |after| && Outlying(ms, i) ensures after[i] == before[i] {
    }
  }

  lemma UnitOnRow<F>(ops: Ops<F>, ms: seq<Matrix<F>>, before: seq<F>, ran: seq<nat>, mid: seq<F>, after: seq<F>, u: nat,
                     m: nat, r0: nat, r1: nat,
                     k: nat, r: nat, v: nat)
    requires BatchOk(ms, |before|) && AllRows(ops, ms, before, ran, mid) && m < |ms| && r0 < r1 <= ms[m].rows
    requires |Activated(ms[m], before)| == ms[m].cols
    requires forall k, r :: 0 <= k < |ms| && 0 <= r ==> (UnitIs(ms, k, r, u) <==> k == m && r0 <= r < r1)
    requires RowsWritten(ops, false, ms[m].p, RawOf(ms[m]), Activated(ms[m], before), Groups(ms[m]), ms[m].rows,
                         ms[m].at, r0, r1, mid, after)
    requires k < |ms| && r < ms[k].rows && UnitIs(ms, k, r, v)
    ensures |after| == |before| && RowState(ops, ms, before, k, r, v in ran + [u], after)
  {
    hide Matching, Activated, Outlying, WeightsOk, RawScales, RawOf, SameAtAddress, NameOf, RowIs, Base;
    var at := ms[k].at + r;
    OneUnit(ms, k, r, u, v);
    hide UnitIs;
    assert RowState(ops, ms, before, k, r, v in ran, mid);
    if k == m && r0 <= r < r1 {
      assert v == u && at - ms[m].at == r;
      assert RowIs(ops, false, ms[m].p, RawOf(ms[m]), Activated(ms[m], before), Groups(ms[m]), ms[m].rows, r,
                   after[at]);
    } else {
      assert k != m ==> Apart(ms[k].at, ms[k].rows, ms[m].at, ms[m].rows);
      assert after[at] == mid[at];
    }
  }

  lemma OneUnit<F>(ms: seq<Matrix<F>>, k: nat, r: nat, u: nat, v: nat)
    requires k < |ms| && UnitIs(ms, k, r, v)
    ensures UnitIs(ms, k, r, u) <==> u == v
  {
    var w := RowHasOneUnit(Rows(ms), k, r);
  }

  // ---------------------------------------------------------------- prepared activations

  function Names<F>(ms: seq<Matrix<F>>): (names: seq<Activation>)
    ensures |names| == |ms| && forall m :: 0 <= m < |ms| ==> names[m] == NameOf(ms[m])
  {
    seq(|ms|, m requires 0 <= m < |ms| => NameOf(ms[m]))
  }

  /** Every matrix's activation, as it lies in memory now. */
  function LoadedBy<F>(ms: seq<Matrix<F>>, buffer: seq<F>): (loaded: seq<seq<F>>)
    requires forall m :: 0 <= m < |ms| && ms[m].input.Inside? ==> ms[m].input.from + ms[m].cols <= |buffer|
    ensures |loaded| == |ms| && forall m :: 0 <= m < |ms| ==> loaded[m] == Activated(ms[m], buffer)
  {
    seq(|ms|, m requires 0 <= m < |ms| => Activated(ms[m], buffer))
  }

  lemma BatchLoads<F>(ms: seq<Matrix<F>>, buffer: seq<F>)
    requires BatchOk(ms, |buffer|)
    ensures forall m :: 0 <= m < |ms| && ms[m].input.Inside? ==> ms[m].input.from + ms[m].cols <= |buffer|
    ensures Loaded(Names(ms), LoadedBy(ms, buffer))
  {
    hide Independent, WeightsOk;
    forall m | 0 <= m < |ms| ensures ms[m].input.Inside? ==> ms[m].input.from + ms[m].cols <= |buffer| {
      assert MatrixOk(ms[m], |buffer|);
    }
    forall m | 0 <= m < |ms| ensures |LoadedBy(ms, buffer)[m]| == Names(ms)[m].cols {
      assert MatrixOk(ms[m], |buffer|);
    }
  }

  /** If the batch was prepared, every matrix has its permuted activation in the arena. */
  ghost predicate ArenaOk<F>(ms: seq<Matrix<F>>, before: seq<F>, prepared: bool, offsets: seq<nat>, arena: seq<F>)
    requires BatchOk(ms, |before|)
  {
    BatchLoads(ms, before);
    prepared ==> |offsets| == |ms| && Filled(Names(ms), LoadedBy(ms, before), offsets, arena, |ms|)
  }

  /** What the unit of a matrix reads, and the kernel it selects. */
  method SelectKernel<F>(ms: seq<Matrix<F>>, m: nat, y: array<F>, prepared: bool, arena: array<F>, offsets: seq<nat>,
                         ghost before: seq<F>) returns (kernel: Kernel, input: seq<F>)
    requires BatchOk(ms, |before|) && m < |ms| && y.Length == |before|
    requires ArenaOk(ms, before, prepared, offsets, arena[..])
    requires MatrixOk(ms[m], |before|) && Activated(ms[m], y[..]) == Activated(ms[m], before)
    ensures InputFor(kernel, input, Activated(ms[m], before), Groups(ms[m]))
  {
    hide Independent, WeightsOk, SameAtAddress;
    if prepared {
      ghost var name, x := NameOf(ms[m]), Activated(ms[m], before);
      assert SlotHolds(name.cols, x, offsets[m], arena[..]) by {
        BatchLoads(ms, before);
        assert Names(ms)[m] == name && LoadedBy(ms, before)[m] == x;
      }
      return Avx2, arena[offsets[m]..offsets[m] + ms[m].cols];
    }
    return Portable, Activated(ms[m], y[..]);
  }

  // ---------------------------------------------------------------- running the units

  /** One claimed unit: find its matrix and rows, and run the selected kernel on them. */
  method RunUnit<F>(ops: Ops<F>, ms: seq<Matrix<F>>, y: array<F>, cum: array<int>, u: nat, prepared: bool,
                    arena: array<F>, offsets: seq<nat>, ghost before: seq<F>, ghost ran: seq<nat>)
    requires BatchOk(ms, |before|) && 0 < |ms| < cum.Length && (cum as object) != y && arena != y
    requires forall k :: 0 <= k <= |ms| ==> cum[k] == FirstUnit(Rows(ms), k)
    requires u < FirstUnit(Rows(ms), |ms|) && AllRows(ops, ms, before, ran, y[..])
    requires ArenaOk(ms, before, prepared, offsets, arena[..])
    modifies y
    ensures AllRows(ops, ms, before, ran + [u], y[..])
  {
    hide RowState, Matching, Independent, MatrixOk, Computes, Activated, Base, RowsWritten, FirstUnit, ArenaOk,
         InputFor, WeightsOk, SameAtAddress, RawScales;
    var m, r0, r1 := LocateUnit(Rows(ms), cum, u);
    ActivationStays(ops, ms, before, ran, y[..], m);
    WithinMatrix(ms, m, before);
    ghost var mid := y[..];
    var kernel, input := SelectKernel(ms, m, y, prepared, arena, offsets, before);
    RunScaled(kernel, ops, ms[m].p, ms[m].scales, input, Activated(ms[m], before), y, ms[m].at, r0, r1, ms[m].rows,
              Groups(ms[m]));
    UnitAdvances(ops, ms, before, ran, mid, y[..], u, m, r0, r1);
  }

  /** `k3_run_units` on a batch. */
  method RunUnits<F>(ops: Ops<F>, ms: seq<Matrix<F>>, y: array<F>, cum: array<int>, order: seq<nat>, prepared: bool,
                     arena: array<F>, offsets: seq<nat>)
    requires BatchOk(ms, |y[..]|) && |ms| < cum.Length && (cum as object) != y && arena != y
    requires forall k :: 0 <= k <= |ms| ==> cum[k] == FirstUnit(Rows(ms), k)
    requires Schedules(order, FirstUnit(Rows(ms), |ms|)) && ArenaOk(ms, y[..], prepared, offsets, arena[..])
    modifies y
    ensures BatchDone(ops, ms, old(y[..]), y[..])
  {
    hide *;
    UnitsInRange(ms, order);
    ghost var before, slots := y[..], arena[..];
    assert order[..0] == [];
    NothingRan(ops, ms, before);
    for n := 0 to |order|
      invariant AllRows(ops, ms, before, order[..n], y[..]) && arena[..] == slots
    {
      RunUnit(ops, ms, y, cum, order[n], prepared, arena, offsets, before, order[..n]);
      assert order[..n + 1] == order[..n] + [order[n]];
    }
    assert order[..|order|] == order;
    AllUnitsRan(ops, ms, before, order, y[..]);
  }

  /** Scheduled units are units of some matrix. */
  lemma UnitsInRange<F>(ms: seq<Matrix<F>>, order: seq<nat>)
    requires Schedules(order, FirstUnit(Rows(ms), |ms|))
    ensures forall k :: 0 <= k < |order| ==> order[k] < FirstUnit(Rows(ms), |ms|) && ms != []
  {
  }

  lemma NothingRan<F>(ops: Ops<F>, ms: seq<Matrix<F>>, before: seq<F>)
    requires BatchOk(ms, |before|)
    ensures AllRows(ops, ms, before, [], before)
  {
    hide Matching, Computes, RowDone;
  }

  lemma WithinMatrix<F>(ms: seq<Matrix<F>>, m: nat, before: seq<F>)
    requires BatchOk(ms, |before|) && m < |ms|
    ensures MatrixOk(ms[m], |before|) && WeightsOk(ms[m].p, ms[m].scales, ms[m].rows, Groups(ms[m]))
    ensures ms[m].at + ms[m].rows <= |before| && (ms[m].input.Inside? ==> ms[m].input.from + ms[m].cols <= |before|)
    ensures |Activated(ms[m], before)| == ms[m].cols && 32 * Groups(ms[m]) <= ms[m].cols
  {
    assert MatrixOk(ms[m], |before|);
    hide WeightsOk;
  }

  lemma AllUnitsRan<F>(ops: Ops<F>, ms: seq<Matrix<F>>, before: seq<F>, order: seq<nat>, after: seq<F>)
    requires BatchOk(ms, |before|) && AllRows(ops, ms, before, order, after)
    requires Schedules(order, FirstUnit(Rows(ms), |ms|))
    ensures BatchDone(ops, ms, before, after)
  {
    hide RowState, Matching, Independent, Computes, MatrixOk;
    forall m, r | 0 <= m < |ms| && 0 <= r < ms[m].rows ensures RowState(ops, ms, before, m, r, true, after) {
      var u := RowHasOneUnit(Rows(ms), m, r);
      assert UnitIs(ms, m, r, u);
    }
  }

  /** The matrices a batch takes: at most MAX_MATS. */
  function Taken<F>(ms: seq<Matrix<F>>): seq<Matrix<F>> { if |ms| > MAX_MATS then ms[..MAX_MATS] else ms }

  /** The batch can be prepared for the 256-bit kernel: activations in whole groups, and an arena to hold them. */
  ghost predicate Preparable<F>(ms: seq<Matrix<F>>, capacity: nat, memory: bool) {
    (forall m :: 0 <= m < |ms| ==> Usable(Names(ms)[m])) && (memory || TotalWidth(Names(ms), |ms|) <= capacity)
  }

  /**
   * `k3_gemv_batch_impl`: whatever the schedule, with raw or compact scales, and whether the machine has the
   * 256-bit kernel and the activations could be prepared for it or not, every row of every matrix is the
   * one-row kernel's.  Each different activation is permuted once.
   */
  method GemvBatch<F(0)>(ops: Ops<F>, ms: seq<Matrix<F>>, y: array<F>, order: seq<nat>, avx2: bool, scratch: array<F>,
                         memory: bool) returns (arena: array<F>, permutations: nat)
    requires BatchOk(Taken(ms), y.Length) && Schedules(order, FirstUnit(Rows(Taken(ms)), |Taken(ms)|)) && scratch != y
    modifies y, scratch
    ensures BatchDone(ops, Taken(ms), old(y[..]), y[..]) && (arena == scratch || fresh(arena))
    ensures permutations == if avx2 && Preparable(Taken(ms), scratch.Length, memory)
                            then Different(Names(Taken(ms)), |Taken(ms)|) else 0
  {
    assert Different(Names(Taken(ms)), 0) == 0;
    hide RowState, Matching, Independent, MatrixOk, SameAtAddress, WeightsOk, Filled, Loaded, Usable, TotalWidth,
         Different;
    arena, permutations := scratch, 0;
    if ms == [] { return; }
    var prepared, offsets := false, [];
    BatchLoads(Taken(ms), y[..]);
    if avx2 {
      var unique;
      ghost var permuted;
      prepared, arena, offsets, unique, permuted :=
        PrepareBatch(Names(Taken(ms)), LoadedBy(Taken(ms), y[..]), scratch, memory);
      if prepared { permutations := unique; }
    }
    var cum := new int[MAX_MATS + 1];
    var n, units := FillCumulative(Rows(Taken(ms)), cum);
    RunUnits(ops, Taken(ms), y, cum, order, prepared, arena, offsets);
  }

  // ---------------------------------------------------------------- the expert set

  /** The activation function and the weighted accumulation, both uninterpreted. */
  datatype Pointwise<!F> = Pointwise(situ: (F, F) -> F, accumulate: (F, F, F) -> F)

  /** The three matrices of an expert: gate, up and down. */
  datatype Expert = Expert(gate: seq<Lanes16>, gateScales: seq<Byte>, up: seq<Lanes16>, upScales: seq<Byte>,
                           down: seq<Lanes16>, downScales: seq<Byte>)

  /** A whole matrix applied to an activation. */
  function Projected<F>(ops: Ops<F>, p: seq<Lanes16>, s: seq<Byte>, x: seq<F>, rows: nat): (y: seq<F>)
    requires Matching(p, s) && Base(rows, |x| / 32) <= |p|
    ensures |y| == rows
  {
    seq(rows, r requires 0 <= r < rows => RowAt(ops, p, s, x, rows, r))
  }

  function RowAt<F>(ops: Ops<F>, p: seq<Lanes16>, s: seq<Byte>, x: seq<F>, rows: nat, r: nat): F
    requires Matching(p, s) && Base(rows, |x| / 32) <= |p| && r < rows
  {
    BaseFits(r, rows, |x| / 32);
    RowValue(ops, false, p, s, x, Base(r, |x| / 32), |x| / 32)
  }

  function Situ<F>(act: Pointwise<F>, gate: seq<F>, up: seq<F>): (h: seq<F>)
    requires |gate| == |up|
    ensures |h| == |gate|
  {
    seq(|gate|, i requires 0 <= i < |gate| => act.situ(gate[i], up[i]))
  }

  predicate ExpertOk(e: Expert, hidden: nat, width: nat) {
    && Matching(e.gate, e.gateScales) && Matching(e.up, e.upScales) && Matching(e.down, e.downScales)
    && Base(hidden, width / 32) <= |e.gate| && Base(hidden, width / 32) <= |e.up|
      && Base(width, hidden / 32) <= |e.down|
  }

  /** One expert on its own. */
  function ExpertOutput<F>(ops: Ops<F>, act: Pointwise<F>, e: Expert, x: seq<F>, hidden: nat): (y: seq<F>)
    requires ExpertOk(e, hidden, |x|)
    ensures |y| == |x|
  {
    Projected(ops, e.down, e.downScales,
              Situ(act, Projected(ops, e.gate, e.gateScales, x, hidden), Projected(ops, e.up, e.upScales, x, hidden)),
              |x|)
  }

  /** Element i of the first n experts' outputs, weighted and added up in order. */
  function Combined<F>(ops: Ops<F>, act: Pointwise<F>, experts: seq<Expert>, weights: seq<F>, x: seq<F>, hidden: nat,
                       n: nat, i: nat): F
    requires n <= |experts| == |weights| && i < |x| && forall e :: e in experts ==> ExpertOk(e, hidden, |x|)
  {
    if n == 0 then ops.zero
    else act.accumulate(Combined(ops, act, experts, weights, x, hidden, n - 1, i), weights[n - 1],
                        ExpertOutput(ops, act, experts[n - 1], x, hidden)[i])
  }

  // ---------------------------------------------------------------- the set, element by element

  /** Element k of an expert's hidden activation is `situ` of its gate row k and its up row k, in that order. */
  function HiddenOf<F>(ops: Ops<F>, act: Pointwise<F>, e: Expert, x: seq<F>, hidden: nat): (h: seq<F>)
    requires ExpertOk(e, hidden, |x|)
    ensures |h| == hidden
  {
    seq(hidden, k requires 0 <= k < hidden =>
      act.situ(RowAt(ops, e.gate, e.gateScales, x, hidden, k), RowAt(ops, e.up, e.upScales, x, hidden, k)))
  }

  /** Element i of an expert's output is down row i on that activation. */
  function ElementOf<F>(ops: Ops<F>, act: Pointwise<F>, e: Expert, x: seq<F>, hidden: nat, i: nat): F
    requires ExpertOk(e, hidden, |x|) && i < |x|
  {
    RowAt(ops, e.down, e.downScales, HiddenOf(ops, act, e, x, hidden), |x|, i)
  }

  /** Weighted values added to `acc` from the left. */
  function FoldWeighted<F>(act: Pointwise<F>, acc: F, weights: seq<F>, values: seq<F>): F
    requires |weights| == |values|
  {
    if values == [] then acc
    else FoldWeighted(act, act.accumulate(acc, weights[0], values[0]), weights[1..], values[1..])
  }

  /** Element i of the set: the experts' elements under their own weights, the first expert first. */
  function SetElement<F>(ops: Ops<F>, act: Pointwise<F>, experts: seq<Expert>, weights: seq<F>, x: seq<F>, hidden: nat,
                         i: nat): F
    requires |weights| == |experts| && i < |x| && ExpertsOk(experts, hidden, |x|)
  {
    FoldWeighted(act, ops.zero, weights, Elements(ops, act, experts, x, hidden, i))
  }

  function Elements<F>(ops: Ops<F>, act: Pointwise<F>, experts: seq<Expert>, x: seq<F>, hidden: nat, i: nat)
    : (values: seq<F>)
    requires i < |x| && ExpertsOk(experts, hidden, |x|)
    ensures |values| == |experts|
  {
    seq(|experts|, e requires 0 <= e < |experts| && ExpertOk(experts[e], hidden, |x|) =>
      ElementOf(ops, act, experts[e], x, hidden, i))
  }

  lemma {:induction false} FoldSnoc<F>(act: Pointwise<F>, acc: F, weights: seq<F>, values: seq<F>, w: F, v: F)
    requires |weights| == |values|
    ensures FoldWeighted(act, acc, weights + [w], values + [v])
      == act.accumulate(FoldWeighted(act, acc, weights, values), w, v)
  {
    if values == [] {
      assert weights + [w] == [w] && values + [v] == [v];
    } else {
      FoldSnoc(act, act.accumulate(acc, weights[0], values[0]), weights[1..], values[1..], w, v);
      assert (weights + [w])[1..] == weights[1..] + [w] && (values + [v])[1..] == values[1..] + [v];
    }
  }

  lemma ElementIsOutput<F>(ops: Ops<F>, act: Pointwise<F>, e: Expert, x: seq<F>, hidden: nat, i: nat)
    requires ExpertOk(e, hidden, |x|) && i < |x|
    ensures ElementOf(ops, act, e, x, hidden, i) == ExpertOutput(ops, act, e, x, hidden)[i]
  {
    hide RowAt;
    assert HiddenOf(ops, act, e, x, hidden) ==
      Situ(act, Projected(ops, e.gate, e.gateScales, x, hidden), Projected(ops, e.up, e.upScales, x, hidden));
  }

  /** The sum of the first n experts is the fold over them. */
  lemma {:induction false} CombinedIsFold<F>(ops: Ops<F>, act: Pointwise<F>, experts: seq<Expert>, weights: seq<F>,
                                             x: seq<F>, hidden: nat, n: nat, i: nat)
    requires n <= |experts| == |weights| && i < |x| && ExpertsOk(experts, hidden, |x|)
    ensures Combined(ops, act, experts, weights, x, hidden, n, i)
      == FoldWeighted(act, ops.zero, weights[..n], Elements(ops, act, experts, x, hidden, i)[..n])
  {
    hide ElementOf, ExpertOutput, ExpertOk;
    var values := Elements(ops, act, experts, x, hidden, i);
    if n > 0 {
      CombinedIsFold(ops, act, experts, weights, x, hidden, n - 1, i);
      assert experts[n - 1] in experts;
      ElementIsOutput(ops, act, experts[n - 1], x, hidden, i);
      FoldSnoc(act, ops.zero, weights[..n - 1], values[..n - 1], weights[n - 1], values[n - 1]);
      assert weights[..n] == weights[..n - 1] + [weights[n - 1]] && values[..n] == values[..n - 1] + [values[n - 1]];
    }
  }

  lemma CombinedIsSet<F>(ops: Ops<F>, act: Pointwise<F>, experts: seq<Expert>, weights: seq<F>, x: seq<F>, hidden: nat,
                         i: nat)
    requires |experts| == |weights| && i < |x| && ExpertsOk(experts, hidden, |x|)
    ensures Combined(ops, act, experts, weights, x, hidden, |experts|, i)
      == SetElement(ops, act, experts, weights, x, hidden, i)
  {
    hide ExpertOk, ElementOf, ExpertOutput;
    CombinedIsFold(ops, act, experts, weights, x, hidden, |experts|, i);
    var values := Elements(ops, act, experts, x, hidden, i);
    assert weights[..|experts|] == weights && values[..|experts|] == values;
  }

  // ---------------------------------------------------------------- the scratch buffer

  /** Block k of a region of blocks of d floats. */
  function Block<F>(buffer: seq<F>, at: nat, d: nat, k: nat): (b: seq<F>)
    requires at + Base(k, d) + d <= |buffer|
    ensures |b| == d
  {
    buffer[at + Base(k, d)..at + Base(k, d) + d]
  }

  lemma BlocksApart(i: nat, j: nat, d: nat)
    requires i < j
    ensures Base(i, d) + d <= Base(j, d)
  {
    BaseFits(i, j, d);
  }

  lemma NextBlock(k: nat, d: nat)
    ensures Base(k + 1, d) == Base(k, d) + d
  {
  }

  /** Phase A: gate and up of every expert, in turn, on the shared activation. */
  function GateUp<F>(experts: seq<Expert>, x: seq<F>, hidden: nat): (ms: seq<Matrix<F>>)
    ensures |ms| == 2 * |experts|
  {
    seq(2 * |experts|, m requires 0 <= m < 2 * |experts| =>
      var e := experts[m / 2];
      var (p, s) := if m % 2 == 0 then (e.gate, e.gateScales) else (e.up, e.upScales);
      Matrix(p, Raw(s), Outside(0, x), |x|, Base(m, hidden), hidden))
  }

  /** Phase B: down of every expert, each on its own hidden activation. */
  function Downs<F>(experts: seq<Expert>, hAt: nat, hidden: nat, yAt: nat, width: nat): (ms: seq<Matrix<F>>)
    ensures |ms| == |experts|
  {
    seq(|experts|, e requires 0 <= e < |experts| =>
      Matrix(experts[e].down, Raw(experts[e].downScales), Inside(hAt + Base(e, hidden)), hidden, yAt + Base(e, width),
             width))
  }

  predicate ExpertsOk(experts: seq<Expert>, hidden: nat, width: nat) {
    forall e :: e in experts ==> ExpertOk(e, hidden, width)
  }

  lemma GateUpOk<F>(experts: seq<Expert>, x: seq<F>, hidden: nat, length: nat)
    requires ExpertsOk(experts, hidden, |x|) && Base(2 * |experts|, hidden) <= length
    ensures BatchOk(GateUp(experts, x, hidden), length)
  {
    var ms := GateUp(experts, x, hidden);
    hide AreBytes;
    forall m | 0 <= m < |ms| ensures MatrixOk(ms[m], length) {
      assert ExpertOk(experts[m / 2], hidden, |x|);
      BlocksApart(m, 2 * |experts|, hidden);
    }
    hide Base, MatrixOk, ExpertOk;
    forall i, j | 0 <= i < |ms| && 0 <= j < |ms| && i != j ensures Apart(ms[i].at, ms[i].rows, ms[j].at, ms[j].rows) {
      if i < j { BlocksApart(i, j, hidden); } else { BlocksApart(j, i, hidden); }
    }
  }

  lemma DownsOk<F>(experts: seq<Expert>, hAt: nat, hidden: nat, yAt: nat, width: nat, length: nat)
    requires ExpertsOk(experts, hidden, width) && hAt + Base(|experts|, hidden) <= yAt
    requires yAt + Base(|experts|, width) <= length
    ensures BatchOk<F>(Downs(experts, hAt, hidden, yAt, width), length)
  {
    var ms: seq<Matrix<F>> := Downs(experts, hAt, hidden, yAt, width);
    hide AreBytes;
    forall e | 0 <= e < |ms| ensures MatrixOk(ms[e], length) && ms[e].input.from + ms[e].cols <= yAt {
      assert ExpertOk(experts[e], hidden, width);
      BlocksApart(e, |experts|, hidden);
      BlocksApart(e, |experts|, width);
    }
    hide Base, MatrixOk, ExpertOk;
    forall i, j | 0 <= i < |ms| && 0 <= j < |ms| && i != j ensures Apart(ms[i].at, ms[i].rows, ms[j].at, ms[j].rows) {
      if i < j { BlocksApart(i, j, width); } else { BlocksApart(j, i, width); }
    }
  }

  /** A matrix's output is the matrix applied to an activation. */
  ghost predicate OutputIs<F>(ops: Ops<F>, m: Matrix<F>, x: seq<F>, after: seq<F>) {
    && |x| == m.cols && WeightsOk(m.p, m.scales, m.rows, Groups(m)) && m.at + m.rows <= |after|
    && after[m.at..m.at + m.rows] == Projected(ops, m.p, RawOf(m), x, m.rows)
  }

  /** What a batch leaves in a matrix's output is the matrix applied to its activation. */
  lemma OutputIsProjected<F>(ops: Ops<F>, ms: seq<Matrix<F>>, before: seq<F>, after: seq<F>, m: nat)
    requires BatchOk(ms, |before|) && BatchDone(ops, ms, before, after) && m < |ms|
    ensures (ms[m].input.Inside? ==> ms[m].input.from + ms[m].cols <= |before|)
    ensures OutputIs(ops, ms[m], Activated(ms[m], before), after)
  {
    WithinMatrix(ms, m, before);
    assert |after| == |before|;
    hide BatchOk, BatchDone, MatrixOk, Matching, Base, WeightsOk, RawOf, Projected, Activated, OutputIs;
    ghost var mat, x := ms[m], Activated(ms[m], before);
    forall r | 0 <= r < mat.rows ensures OutputAt(ops, mat, x, after, r) {
      RowIsDone(ops, ms, before, after, m, r);
      DoneIsOutput(ops, mat, before, after, r);
    }
    OutputFromRows(ops, mat, x, after);
  }

  ghost predicate OutputAt<F>(ops: Ops<F>, m: Matrix<F>, x: seq<F>, after: seq<F>, r: nat)
    requires |x| == m.cols && WeightsOk(m.p, m.scales, m.rows, Groups(m)) && m.at + m.rows <= |after| && r < m.rows
  {
    after[m.at + r] == Projected(ops, m.p, RawOf(m), x, m.rows)[r]
  }

  lemma OutputFromRows<F>(ops: Ops<F>, m: Matrix<F>, x: seq<F>, after: seq<F>)
    requires |x| == m.cols && WeightsOk(m.p, m.scales, m.rows, Groups(m)) && m.at + m.rows <= |after|
    requires forall r :: 0 <= r < m.rows ==> OutputAt(ops, m, x, after, r)
    ensures OutputIs(ops, m, x, after)
  {
    hide Projected, WeightsOk, RawOf, Base;
    forall r | 0 <= r < m.rows
      ensures after[m.at..m.at + m.rows][r] == Projected(ops, m.p, RawOf(m), x, m.rows)[r]
    {
      assert OutputAt(ops, m, x, after, r);
    }
  }

  lemma DoneIsOutput<F>(ops: Ops<F>, m: Matrix<F>, before: seq<F>, after: seq<F>, r: nat)
    requires MatrixOk(m, |before|) && |after| == |before| && r < m.rows && |Activated(m, before)| == m.cols
    requires RowDone(ops, m, before, r, after[m.at + r])
    ensures OutputAt(ops, m, Activated(m, before), after, r)
  {
    hide RowDone, RowAt, WeightsOk, RawOf, Activated, OutputAt;
    DoneIsProjected(ops, m, before, r, after[m.at + r]);
    ProjectedAt(ops, m, Activated(m, before), after, r);
  }

  lemma RowIsDone<F>(ops: Ops<F>, ms: seq<Matrix<F>>, before: seq<F>, after: seq<F>, m: nat, r: nat)
    requires BatchOk(ms, |before|) && BatchDone(ops, ms, before, after) && m < |ms| && r < ms[m].rows
    requires MatrixOk(ms[m], |before|) && ms[m].at + ms[m].rows <= |after| == |before|
    ensures RowDone(ops, ms[m], before, r, after[ms[m].at + r])
  {
    hide Independent, SameAtAddress, MatrixOk, Outlying, RowDone, RowIs, RawOf, WeightsOk, Activated, Matching, Base;
    assert RowState(ops, ms, before, m, r, true, after);
  }

  lemma ProjectedAt<F>(ops: Ops<F>, m: Matrix<F>, x: seq<F>, after: seq<F>, r: nat)
    requires |x| == m.cols && WeightsOk(m.p, m.scales, m.rows, Groups(m)) && m.at + m.rows <= |after| && r < m.rows
    requires after[m.at + r] == RowAt(ops, m.p, RawOf(m), x, m.rows, r)
    ensures OutputAt(ops, m, x, after, r)
  {
    hide RowAt, WeightsOk, RawOf;
  }

  lemma DoneIsProjected<F>(ops: Ops<F>, m: Matrix<F>, before: seq<F>, r: nat, v: F)
    requires MatrixOk(m, |before|) && r < m.rows && RowDone(ops, m, before, r, v)
    requires |Activated(m, before)| == m.cols
    ensures v == RowAt(ops, m.p, RawOf(m), Activated(m, before), m.rows, r)
  {
    hide RowValue, WeightsOk, RawScales, Activated;
  }

  /** `mxfp4_situ_batch`: unit e fills the hidden block of expert e from its gate and up blocks. */
  method SituBatch<F>(act: Pointwise<F>, y: array<F>, hAt: nat, hidden: nat, n: nat, order: seq<nat>)
    requires Schedules(order, n) && Base(2 * n, hidden) <= hAt && hAt + Base(n, hidden) <= y.Length
    modifies y
    ensures forall e :: 0 <= e < n ==> HiddenDone(act, old(y[..]), y[..], hAt, hidden, e)
    ensures forall i :: 0 <= i < y.Length && !(hAt <= i < hAt + Base(n, hidden)) ==> y[i] == old(y[i])
  {
    hide Base, HiddenDone;
    ghost var before := y[..];
    for k := 0 to |order|
      invariant forall e :: e in order[..k] ==> HiddenDone(act, before, y[..], hAt, hidden, e)
      invariant forall i :: 0 <= i < y.Length && !(hAt <= i < hAt + Base(n, hidden)) ==> y[i] == before[i]
    {
      var u := order[k];
      ghost var mid := y[..];
      SituUnit(act, y, hAt, hidden, n, u);
      BlocksApart(u, n, hidden);
      HiddenFresh(act, before, mid, y[..], hAt, hidden, n, u);
      forall e | e in order[..k] ensures HiddenDone(act, before, y[..], hAt, hidden, e) {
        if e != u { HiddenStays(act, before, mid, y[..], hAt, hidden, u, e); }
      }
      assert order[..k + 1] == order[..k] + [u];
    }
    assert order[..|order|] == order;
  }

  /** The hidden block of expert e is the activation of its gate and up blocks. */
  ghost predicate HiddenDone<F>(act: Pointwise<F>, before: seq<F>, after: seq<F>, hAt: nat, hidden: nat, e: nat) {
    && Base(2 * e, hidden) + hidden <= |before| && Base(2 * e + 1, hidden) + hidden <= |before|
    && hAt + Base(e, hidden) + hidden <= |after|
    && Block(after, hAt, hidden, e) == Situ(act, Block(before, 0, hidden, 2 * e), Block(before, 0, hidden, 2 * e + 1))
  }

  method SituUnit<F>(act: Pointwise<F>, y: array<F>, hAt: nat, hidden: nat, n: nat, u: nat)
    requires u < n && Base(2 * n, hidden) <= hAt && hAt + Base(n, hidden) <= y.Length
    modifies y
    ensures HiddenDone(act, old(y[..]), y[..], hAt, hidden, u)
    ensures forall i :: 0 <= i < y.Length && !(hAt + Base(u, hidden) <= i < hAt + Base(u, hidden) + hidden) ==>
      y[i] == old(y[i])
  {
    BlocksApart(u, n, hidden);
    BlocksApart(2 * u + 1, 2 * n, hidden);
    NextBlock(2 * u, hidden);
    var g, h := Base(2 * u, hidden), hAt + Base(u, hidden);
    hide Base;
    ghost var before := y[..];
    ghost var gate, up := Block(before, 0, hidden, 2 * u), Block(before, 0, hidden, 2 * u + 1);
    for i := 0 to hidden
      invariant forall j :: 0 <= j < y.Length && !(h <= j < h + i) ==> y[j] == before[j]
      invariant forall j :: h <= j < h + i ==> y[j] == Situ(act, gate, up)[j - h]
    {
      y[h + i] := act.situ(y[g + i], y[g + hidden + i]);
    }
    assert Block(y[..], hAt, hidden, u) == Situ(act, gate, up);
  }

  lemma HiddenStays<F>(act: Pointwise<F>, before: seq<F>, mid: seq<F>, after: seq<F>, hAt: nat, hidden: nat, u: nat,
                       e: nat)
    requires HiddenDone(act, before, mid, hAt, hidden, e) && |after| == |mid| && e != u
    requires forall i :: 0 <= i < |after| && !(hAt + Base(u, hidden) <= i < hAt + Base(u, hidden) + hidden) ==>
      after[i] == mid[i]
    ensures HiddenDone(act, before, after, hAt, hidden, e)
  {
    if e < u { BlocksApart(e, u, hidden); } else { BlocksApart(u, e, hidden); }
    hide Base, Situ;
    var at := hAt + Base(e, hidden);
    assert forall i :: at <= i < at + hidden ==> after[i] == mid[i];
    assert after[at..at + hidden] == mid[at..at + hidden];
  }

  lemma HiddenFresh<F>(act: Pointwise<F>, before: seq<F>, mid: seq<F>, after: seq<F>, hAt: nat, hidden: nat, n: nat,
                       u: nat)
    requires u < n && Base(2 * n, hidden) <= hAt <= |before| == |mid|
    requires HiddenDone(act, mid, after, hAt, hidden, u) && forall i :: 0 <= i < hAt ==> mid[i] == before[i]
    ensures HiddenDone(act, before, after, hAt, hidden, u)
  {
    BlocksApart(2 * u + 1, 2 * n, hidden);
    NextBlock(2 * u, hidden);
    hide Base;
    assert Block(before, 0, hidden, 2 * u) == Block(mid, 0, hidden, 2 * u);
    assert Block(before, 0, hidden, 2 * u + 1) == Block(mid, 0, hidden, 2 * u + 1);
  }

  // ---------------------------------------------------------------- the whole set

  /** Where hidden activations and outputs begin in the scratch buffer, and where it ends. */
  function HiddenAt(n: nat, hidden: nat): nat { Base(2 * n, hidden) }
  function OutputsAt(n: nat, hidden: nat): nat { HiddenAt(n, hidden) + Base(n, hidden) }
  function ScratchSize(n: nat, hidden: nat, width: nat): nat { OutputsAt(n, hidden) + Base(n, width) }

  lemma ScratchIsNeed(n: nat, hidden: nat, width: nat)
    ensures ScratchSize(n, hidden, width) == n * (3 * hidden + width)
  {
  }

  /** The schedules of the three dispatches. */
  ghost predicate SchedulesOk(experts: seq<Expert>, hidden: nat, width: nat, orders: (seq<nat>, seq<nat>, seq<nat>)) {
    var n := |experts|;
    && Schedules(orders.0, FirstUnit(seq(2 * n, _ => hidden), 2 * n))
    && Schedules(orders.1, n)
    && Schedules(orders.2, FirstUnit(seq(n, _ => width), n))
  }

  /** The three dispatches leave every expert's output in its block of the scratch buffer. */
  method RunExperts<F(0)>(ops: Ops<F>, act: Pointwise<F>, experts: seq<Expert>, x: seq<F>, hidden: nat,
                          scratch: array<F>,
                          orders: (seq<nat>, seq<nat>, seq<nat>), avx2: bool, arena: array<F>, memory: (bool, bool))
    returns (after: array<F>)
    requires ExpertsOk(experts, hidden, |x|) && 0 < |experts| <= MAX_MATS / 2
    requires SchedulesOk(experts, hidden, |x|, orders)
    requires ScratchSize(|experts|, hidden, |x|) <= scratch.Length && arena != scratch
    modifies scratch, arena
    ensures after == arena || fresh(after)
    ensures forall e :: 0 <= e < |experts| ==> ExpertDone(ops, act, experts, x, hidden, scratch[..], e)
  {
    var n, hAt, yAt := |experts|, HiddenAt(|experts|, hidden), OutputsAt(|experts|, hidden);
    GateUpOk(experts, x, hidden, scratch.Length);
    DownsOk<F>(experts, hAt, hidden, yAt, |x|, scratch.Length);
    hide BatchOk, ExpertsOk, Base, Schedules, FirstUnit, BatchDone, HiddenDone, ExpertDone;
    assert Rows(GateUp(experts, x, hidden)) == seq(2 * n, _ => hidden);
    assert Rows(Downs<F>(experts, hAt, hidden, yAt, |x|)) == seq(n, _ => |x|);
    ghost var s0 := scratch[..];
    var mid, _ := GemvBatch(ops, GateUp(experts, x, hidden), scratch, orders.0, avx2, arena, memory.0);
    ghost var s1 := scratch[..];
    SituBatch(act, scratch, hAt, hidden, n, orders.1);
    ghost var s2 := scratch[..];
    var permutations;
    after, permutations :=
      GemvBatch(ops, Downs(experts, hAt, hidden, yAt, |x|), scratch, orders.2, avx2, mid, memory.1);
    forall e | 0 <= e < n ensures ExpertDone(ops, act, experts, x, hidden, scratch[..], e) {
      OneExpert(ops, act, experts, x, hidden, s0, s1, s2, scratch[..], e);
    }
  }

  ghost predicate ExpertDone<F>(ops: Ops<F>, act: Pointwise<F>, experts: seq<Expert>, x: seq<F>, hidden: nat,
                                buffer: seq<F>, e: nat)
    requires e < |experts|
  {
    var yAt := OutputsAt(|experts|, hidden);
    && ExpertOk(experts[e], hidden, |x|) && yAt + Base(e, |x|) + |x| <= |buffer|
    && Block(buffer, yAt, |x|, e) == ExpertOutput(ops, act, experts[e], x, hidden)
  }

  lemma GateUpAt<F>(experts: seq<Expert>, x: seq<F>, hidden: nat, e: nat)
    requires e < |experts|
    ensures var ms := GateUp(experts, x, hidden);
      && ms[2 * e]
        == Matrix(experts[e].gate, Raw(experts[e].gateScales), Outside(0, x), |x|, Base(2 * e, hidden), hidden)
      && ms[2 * e + 1]
        == Matrix(experts[e].up, Raw(experts[e].upScales), Outside(0, x), |x|, Base(2 * e + 1, hidden), hidden)
  {
    hide Base;
    assert (2 * e) / 2 == e && (2 * e) % 2 == 0 && (2 * e + 1) / 2 == e && (2 * e + 1) % 2 == 1;
  }

  /** What phase A leaves in the two blocks of an expert. */
  lemma GateUpDone<F>(ops: Ops<F>, experts: seq<Expert>, x: seq<F>, hidden: nat, before: seq<F>, after: seq<F>, e: nat)
    requires e < |experts| && ExpertOk(experts[e], hidden, |x|)
    requires BatchOk(GateUp(experts, x, hidden), |before|) && BatchDone(ops, GateUp(experts, x, hidden), before, after)
    ensures Base(2 * e, hidden) + hidden <= |after| && Base(2 * e + 1, hidden) + hidden <= |after|
    ensures Block(after, 0, hidden, 2 * e) == Projected(ops, experts[e].gate, experts[e].gateScales, x, hidden)
    ensures Block(after, 0, hidden, 2 * e + 1) == Projected(ops, experts[e].up, experts[e].upScales, x, hidden)
  {
    GateUpAt(experts, x, hidden, e);
    hide *;
    var ms := GateUp(experts, x, hidden);
    SharedIsProjected(ops, ms, before, after, 2 * e, experts[e].gate, experts[e].gateScales, x, hidden);
    SharedIsProjected(ops, ms, before, after, 2 * e + 1, experts[e].up, experts[e].upScales, x, hidden);
  }

  lemma SharedIsProjected<F>(ops: Ops<F>, ms: seq<Matrix<F>>, before: seq<F>, after: seq<F>, m: nat,
                             p: seq<Lanes16>, s: seq<Byte>, x: seq<F>, rows: nat)
    requires BatchOk(ms, |before|) && BatchDone(ops, ms, before, after) && m < |ms|
    requires ms[m] == Matrix(p, Raw(s), Outside(0, x), |x|, Base(m, rows), rows)
    ensures Matching(p, s) && Base(rows, |x| / 32) <= |p| && Base(m, rows) + rows <= |after|
    ensures Block(after, 0, rows, m) == Projected(ops, p, s, x, rows)
  {
    hide BatchOk, BatchDone, Matching, Base, Projected;
    OutputIsProjected(ops, ms, before, after, m);
  }

  /** What phase B makes of a hidden block. */
  lemma DownDone<F>(ops: Ops<F>, experts: seq<Expert>, hAt: nat, hidden: nat, yAt: nat, width: nat, before: seq<F>,
                    after: seq<F>, e: nat)
    requires e < |experts| && ExpertOk(experts[e], hidden, width) && hAt + Base(e, hidden) + hidden <= |before|
    requires BatchOk<F>(Downs(experts, hAt, hidden, yAt, width), |before|)
    requires BatchDone(ops, Downs(experts, hAt, hidden, yAt, width), before, after)
    ensures yAt + Base(e, width) + width <= |after|
    ensures Block(after, yAt, width, e)
      == Projected(ops, experts[e].down, experts[e].downScales, Block(before, hAt, hidden, e), width)
  {
    hide BatchOk, BatchDone, Matching, Base, Projected;
    var ms: seq<Matrix<F>> := Downs(experts, hAt, hidden, yAt, width);
    assert ms[e]
      == Matrix(experts[e].down, Raw(experts[e].downScales), Inside(hAt + Base(e, hidden)), hidden,
                yAt + Base(e, width), width);
    hide Downs;
    OutputIsProjected(ops, ms, before, after, e);
  }

  /** From gate and up through the hidden block to the output block of one expert. */
  lemma OneExpert<F>(ops: Ops<F>, act: Pointwise<F>, experts: seq<Expert>, x: seq<F>, hidden: nat,
                     s0: seq<F>, s1: seq<F>, s2: seq<F>, s3: seq<F>, e: nat)
    requires e < |experts| && ExpertsOk(experts, hidden, |x|)
    requires BatchOk(GateUp(experts, x, hidden), |s0|) && BatchDone(ops, GateUp(experts, x, hidden), s0, s1)
    requires HiddenDone(act, s1, s2, HiddenAt(|experts|, hidden), hidden, e)
    requires var ms: seq<Matrix<F>> :=
      Downs(experts, HiddenAt(|experts|, hidden), hidden, OutputsAt(|experts|, hidden), |x|);
      BatchOk(ms, |s2|) && BatchDone(ops, ms, s2, s3)
    ensures ExpertDone(ops, act, experts, x, hidden, s3, e)
  {
    assert ExpertOk(experts[e], hidden, |x|);
    hide ExpertsOk, ExpertOk, BatchOk, BatchDone, GateUp, Downs, Base, HiddenAt, OutputsAt, Block, Projected, Situ;
    GateUpDone(ops, experts, x, hidden, s0, s1, e);
    DownDone(ops, experts, HiddenAt(|experts|, hidden), hidden, OutputsAt(|experts|, hidden), |x|, s2, s3, e);
  }

  /**
   * `mxfp4_moe_expert_set`: for every schedule of its dispatches the output is the sum of the experts
   * run one by one, weighted and added in order.
   */
  method ExpertSet<F(0)>(ops: Ops<F>, act: Pointwise<F>, experts: seq<Expert>, x: seq<F>, weights: seq<F>, hidden: nat,
                         scratch: array?<F>, out: array<F>, orders: (seq<nat>, seq<nat>, seq<nat>), avx2: bool,
                         arena: array<F>, memory: (bool, bool)) returns (ok: bool, after: array<F>)
    requires ExpertsOk(experts, hidden, |x|) && |weights| == |experts| && out.Length == |x| && out != scratch
    requires SchedulesOk(experts, hidden, |x|, orders) && arena != scratch && arena != out
    requires scratch != null ==> |experts| * (3 * hidden + |x|) <= scratch.Length
    modifies out, arena, if scratch == null then {} else {scratch}
    ensures after == arena || fresh(after)
    ensures ok <==> 0 < |experts| <= MAX_MATS / 2 && 0 < hidden && 0 < |x|
    ensures ok ==> forall i :: 0 <= i < |x| ==> out[i] == Combined(ops, act, experts, weights, x, hidden, |experts|, i)
    ensures ok ==> forall i :: 0 <= i < |x| ==> out[i] == SetElement(ops, act, experts, weights, x, hidden, i)
    ensures !ok ==> out[..] == old(out[..])
  {
    if |experts| == 0 || |experts| > MAX_MATS / 2 || hidden == 0 || |x| == 0 { return false, arena; }
    ScratchIsNeed(|experts|, hidden, |x|);
    var buffer: array<F>;
    if scratch == null {
      buffer := new F[|experts| * (3 * hidden + |x|)];
    } else {
      buffer := scratch;
    }
    hide ExpertsOk, SchedulesOk;
    after := RunExperts(ops, act, experts, x, hidden, buffer, orders, avx2, arena, memory);
    Combine(ops, act, experts, weights, x, hidden, buffer, out);
    forall i | 0 <= i < |x| ensures out[i] == SetElement(ops, act, experts, weights, x, hidden, i) {
      CombinedIsSet(ops, act, experts, weights, x, hidden, i);
    }
    ok := true;
  }

  /** The sequential combination, expert by expert over all elements. */
  method Combine<F>(ops: Ops<F>, act: Pointwise<F>, experts: seq<Expert>, weights: seq<F>, x: seq<F>, hidden: nat,
                    buffer: array<F>, out: array<F>)
    requires ExpertsOk(experts, hidden, |x|) && |weights| == |experts| && out.Length == |x| && out != buffer
    requires forall e :: 0 <= e < |experts| ==> ExpertDone(ops, act, experts, x, hidden, buffer[..], e)
    modifies out
    ensures forall i :: 0 <= i < |x| ==> out[i] == Combined(ops, act, experts, weights, x, hidden, |experts|, i)
  {
    hide ExpertOutput, ExpertOk, Base, OutputsAt;
    var yAt := OutputsAt(|experts|, hidden);
    for i := 0 to |x|
      invariant forall j :: 0 <= j < i ==> out[j] == ops.zero
    {
      out[i] := ops.zero;
    }
    for e := 0 to |experts|
      invariant forall i :: 0 <= i < |x| ==> out[i] == Combined(ops, act, experts, weights, x, hidden, e, i)
    {
      assert ExpertDone(ops, act, experts, x, hidden, buffer[..], e);
      ghost var y := ExpertOutput(ops, act, experts[e], x, hidden);
      for i := 0 to |x|
        invariant forall j :: 0 <= j < i ==> out[j] == Combined(ops, act, experts, weights, x, hidden, e + 1, j)
        invariant forall j :: i <= j < |x| ==> out[j] == Combined(ops, act, experts, weights, x, hidden, e, j)
      {
        assert buffer[yAt + Base(e, |x|) + i] == y[i];
        out[i] := act.accumulate(out[i], weights[e], buffer[yAt + Base(e, |x|) + i]);
      }
    }
  }
}
