/**
 * The KDA layer of native/provider_gate/provider_kda.cpp and provider_kda_batch.cpp: one-position decode
 * with its short convolutions and recurrent state, and the T-wide tape that convolves all positions
 * first, then runs the recurrence, and defers the output projection.  Projections, activations and the
 * recurrent update are uninterpreted functions of single rows; a row is its list of channels.
 */
module KdaTape {

  const MAX_POSITIONS: nat := 64

  type Row<F> = seq<F>

  datatype Ops<!F, !H, !S, !O> = Ops(
    query: H -> Row<F>, key: H -> Row<F>, value: H -> Row<F>,             // input projections
    featureA: H -> Row<F>, featureB: Row<F> -> Row<F>, beta: H -> Row<F>, // dependent projections
    mul: (F, F) -> F, sum: Row<F> -> F, silu: F -> F,
    normalize: Row<F> -> Row<F>,
    update: (S, Row<F>, Row<F>, Row<F>, Row<F>) -> S,                     // state, decay features, key, value, beta
    read: (Row<F>, S) -> Row<F>,
    finish: (H, Row<F>) -> O)                                             // output norm, gate and projection

  /** Kernels of the three arms: for each channel its taps. */
  datatype Kernels<F> = Kernels(query: seq<Row<F>>, key: seq<Row<F>>, value: seq<Row<F>>)

  /** Convolution histories, oldest row first, and the recurrent matrix. */
  datatype State<F, S> = State(query: seq<Row<F>>, key: seq<Row<F>>, value: seq<Row<F>>, recurrent: S)

  // ---------------------------------------------------------------- shapes

  predicate Wide<F>(rows: seq<Row<F>>, channels: nat) { forall t :: 0 <= t < |rows| ==> |rows[t]| == channels }

  predicate ArmOk<F>(kernel: seq<Row<F>>, history: seq<Row<F>>) {
    |history| > 0 && Wide(kernel, |history|) && Wide(history, |kernel|)
  }

  predicate StateOk<F, S>(kernels: Kernels<F>, state: State<F, S>) {
    ArmOk(kernels.query, state.query) && ArmOk(kernels.key, state.key) && ArmOk(kernels.value, state.value)
  }

  /** Every projection yields as many channels as its kernel has. */
  ghost predicate Fits<F, H, S, O>(ops: Ops<F, H, S, O>, kernels: Kernels<F>, hidden: seq<H>) {
    forall h :: h in hidden ==>
      |ops.query(h)| == |kernels.query| && |ops.key(h)| == |kernels.key| && |ops.value(h)| == |kernels.value|
  }

  // ---------------------------------------------------------------- one position

  /** One channel of a window under its taps. */
  function Tap<F, H, S, O>(ops: Ops<F, H, S, O>, taps: Row<F>, window: seq<Row<F>>, c: nat): F
    requires |taps| == |window| && forall t :: 0 <= t < |window| ==> c < |window[t]|
  {
    ops.silu(ops.sum(seq(|window|, t requires 0 <= t < |window| => ops.mul(window[t][c], taps[t]))))
  }

  /** A window of rows convolved to one row. */
  function Convolve<F, H, S, O>(ops: Ops<F, H, S, O>, kernel: seq<Row<F>>, window: seq<Row<F>>): (row: Row<F>)
    requires Wide(kernel, |window|) && Wide(window, |kernel|)
    ensures |row| == |kernel|
  {
    seq(|kernel|, c requires 0 <= c < |kernel| => Tap(ops, kernel[c], window, c))
  }

  /** The history after one more row: `short_convolution_one`'s source. */
  function Shift<F>(history: seq<Row<F>>, row: Row<F>): (next: seq<Row<F>>)
    requires |history| > 0
    ensures |next| == |history|
  {
    history[1..] + [row]
  }

  /** The recurrent update from convolved rows. */
  function Recur<F, H, S, O>(ops: Ops<F, H, S, O>, recurrent: S, h: H, key: Row<F>, value: Row<F>): S {
    ops.update(recurrent, ops.featureB(ops.featureA(h)), ops.normalize(key), value, ops.beta(h))
  }

  /** `execute_tape`: the output of one position and the state after it. */
  function DecodeOne<F, H, S, O>(ops: Ops<F, H, S, O>, kernels: Kernels<F>, state: State<F, S>, h: H)
    : (r: (O, State<F, S>))
    requires StateOk(kernels, state) && Fits(ops, kernels, [h])
    ensures StateOk(kernels, r.1)
    ensures |r.1.query| == |state.query| && |r.1.key| == |state.key| && |r.1.value| == |state.value|
  {
    assert h in [h];
    var query, key, value :=
      Shift(state.query, ops.query(h)), Shift(state.key, ops.key(h)), Shift(state.value, ops.value(h));
    var recurrent :=
      Recur(ops, state.recurrent, h, Convolve(ops, kernels.key, key), Convolve(ops, kernels.value, value));
    var read := ops.read(ops.normalize(Convolve(ops, kernels.query, query)), recurrent);
    (ops.finish(h, read), State(query, key, value, recurrent))
  }

  /** The state after decoding positions one at a time. */
  function StateAfter<F, H, S, O>(ops: Ops<F, H, S, O>, kernels: Kernels<F>, state: State<F, S>, hidden: seq<H>)
    : (after: State<F, S>)
    requires StateOk(kernels, state) && Fits(ops, kernels, hidden)
    ensures StateOk(kernels, after)
    ensures |after.query| == |state.query| && |after.key| == |state.key| && |after.value| == |state.value|
  {
    if hidden == [] then state else
      var n := |hidden| - 1;
      DecodeOne(ops, kernels, StateAfter(ops, kernels, state, hidden[..n]), hidden[n]).1
  }

  /** The output of position k when positions are decoded one at a time. */
  function OutputAt<F, H, S, O>(ops: Ops<F, H, S, O>, kernels: Kernels<F>, state: State<F, S>, hidden: seq<H>,
                                k: nat): O
    requires StateOk(kernels, state) && Fits(ops, kernels, hidden) && k < |hidden|
  {
    DecodeOne(ops, kernels, StateAfter(ops, kernels, state, hidden[..k]), hidden[k]).0
  }

  // ---------------------------------------------------------------- all positions at once

  /** All rows behind the history without its oldest: `short_convolution_positions`' source. */
  function Source<F>(history: seq<Row<F>>, rows: seq<Row<F>>): (source: seq<Row<F>>)
    requires |history| > 0
    ensures |source| == |history| - 1 + |rows|
  {
    history[1..] + rows
  }

  /** Sliding windows of the source, each convolved. */
  function ConvolveAll<F, H, S, O>(ops: Ops<F, H, S, O>, kernel: seq<Row<F>>, history: seq<Row<F>>, rows: seq<Row<F>>)
    : (out: seq<Row<F>>)
    requires ArmOk(kernel, history) && Wide(rows, |kernel|)
    ensures |out| == |rows|
  {
    var source := Source(history, rows);
    seq(|rows|, t requires 0 <= t < |rows| => Convolve(ops, kernel, source[t..t + |history|]))
  }

  function History<F>(history: seq<Row<F>>, rows: seq<Row<F>>): (after: seq<Row<F>>)
    requires |history| > 0
    ensures |after| == |history|
  {
    if rows == [] then history else Shift(History(history, rows[..|rows| - 1]), rows[|rows| - 1])
  }

  /** After t + 1 rows the history is the window of the source that begins at t. */
  lemma {:induction false} HistoryIsWindow<F>(history: seq<Row<F>>, rows: seq<Row<F>>, t: nat)
    requires |history| > 0 && t < |rows|
    ensures History(history, rows[..t + 1]) == Source(history, rows)[t..t + |history|]
  {
    NextHistory(history, rows, t);
    if t > 0 {
      HistoryIsWindow(history, rows, t - 1);
      ShiftWindow(Source(history, rows), t - 1, |history|, rows[t]);
    } else {
      assert rows[..0] == [];
      assert Source(history, rows)[0..|history|] == history[1..] + [rows[0]];
    }
  }

  lemma ShiftWindow<F>(source: seq<Row<F>>, t: nat, width: nat, row: Row<F>)
    requires width > 0 && t + 1 + width <= |source| && source[t + width] == row
    ensures Shift(source[t..t + width], row) == source[t + 1..t + 1 + width]
  {
  }

  lemma NextHistory<F>(history: seq<Row<F>>, rows: seq<Row<F>>, t: nat)
    requires |history| > 0 && t < |rows|
    ensures History(history, rows[..t + 1]) == Shift(History(history, rows[..t]), rows[t])
  {
    assert rows[..t + 1][..t] == rows[..t];
  }

  function Project<F, H>(project: H -> Row<F>, hidden: seq<H>): (rows: seq<Row<F>>)
    ensures |rows| == |hidden| && forall t :: 0 <= t < |hidden| ==> rows[t] == project(hidden[t])
  {
    seq(|hidden|, t requires 0 <= t < |hidden| => project(hidden[t]))
  }

  /** Decoding one position at a time leaves these histories. */
  lemma {:induction false} HistoriesAfter<F, H, S, O>(ops: Ops<F, H, S, O>, kernels: Kernels<F>, state: State<F, S>,
                                                      hidden: seq<H>)
    requires StateOk(kernels, state) && Fits(ops, kernels, hidden)
    ensures StateAfter(ops, kernels, state, hidden).query == History(state.query, Project(ops.query, hidden))
    ensures StateAfter(ops, kernels, state, hidden).key == History(state.key, Project(ops.key, hidden))
    ensures StateAfter(ops, kernels, state, hidden).value == History(state.value, Project(ops.value, hidden))
  {
    if hidden != [] {
      var n := |hidden| - 1;
      HistoriesAfter(ops, kernels, state, hidden[..n]);
      assert Project(ops.query, hidden)[..n] == Project(ops.query, hidden[..n]);
      assert Project(ops.key, hidden)[..n] == Project(ops.key, hidden[..n]);
      assert Project(ops.value, hidden)[..n] == Project(ops.value, hidden[..n]);
    }
  }

  /** Row t of the wide convolution is the row that decoding position t convolves. */
  lemma WideConvolution<F, H, S, O>(ops: Ops<F, H, S, O>, kernel: seq<Row<F>>, history: seq<Row<F>>, rows: seq<Row<F>>,
                                    t: nat)
    requires ArmOk(kernel, history) && Wide(rows, |kernel|) && t < |rows|
    ensures var after := History(history, rows[..t + 1]);
      Wide(after, |kernel|) && ConvolveAll(ops, kernel, history, rows)[t] == Convolve(ops, kernel, after)
  {
    HistoryIsWindow(history, rows, t);
  }

  /** Decoding one more position. */
  lemma OneMore<F, H, S, O>(ops: Ops<F, H, S, O>, kernels: Kernels<F>, state: State<F, S>, hidden: seq<H>, t: nat)
    requires StateOk(kernels, state) && Fits(ops, kernels, hidden) && t < |hidden|
    requires Wide(Project(ops.query, hidden), |kernels.query|) && Wide(Project(ops.key, hidden), |kernels.key|)
    requires Wide(Project(ops.value, hidden), |kernels.value|)
    ensures StateAfter(ops, kernels, state, hidden[..t + 1]).recurrent ==
      Recur(ops, StateAfter(ops, kernels, state, hidden[..t]).recurrent, hidden[t],
            ConvolveAll(ops, kernels.key, state.key, Project(ops.key, hidden))[t],
            ConvolveAll(ops, kernels.value, state.value, Project(ops.value, hidden))[t])
    ensures OutputAt(ops, kernels, state, hidden, t) ==
      ops.finish(hidden[t],
                 ops.read(ops.normalize(ConvolveAll(ops, kernels.query, state.query, Project(ops.query, hidden))[t]),
                                     StateAfter(ops, kernels, state, hidden[..t + 1]).recurrent))
  {
    assert hidden[..t + 1][..t] == hidden[..t];
    HistoriesAfter(ops, kernels, state, hidden[..t]);
    assert Project(ops.query, hidden)[..t] == Project(ops.query, hidden[..t]);
    assert Project(ops.key, hidden)[..t] == Project(ops.key, hidden[..t]);
    assert Project(ops.value, hidden)[..t] == Project(ops.value, hidden[..t]);
    NextHistory(state.query, Project(ops.query, hidden), t);
    NextHistory(state.key, Project(ops.key, hidden), t);
    NextHistory(state.value, Project(ops.value, hidden), t);
    WideConvolution(ops, kernels.query, state.query, Project(ops.query, hidden), t);
    WideConvolution(ops, kernels.key, state.key, Project(ops.key, hidden), t);
    WideConvolution(ops, kernels.value, state.value, Project(ops.value, hidden), t);
    hide Convolve, ConvolveAll, History, Project, Recur, Shift;
  }

  // ---------------------------------------------------------------- the tape

  /** Convolved rows of the three arms and the sources they were cut from. */
  datatype Convolved<F> = Convolved(query: seq<Row<F>>, key: seq<Row<F>>, value: seq<Row<F>>,
                                    querySource: seq<Row<F>>, keySource: seq<Row<F>>, valueSource: seq<Row<F>>)

  /** `kda_short_convolve_positions` on the projected rows. */
  function ShortConvolve<F, H, S, O>(ops: Ops<F, H, S, O>, kernels: Kernels<F>, state: State<F, S>,
                                     query: seq<Row<F>>, key: seq<Row<F>>, value: seq<Row<F>>): (c: Convolved<F>)
    requires StateOk(kernels, state)
    requires Wide(query, |kernels.query|) && Wide(key, |kernels.key|) && Wide(value, |kernels.value|)
  {
    Convolved(ConvolveAll(ops, kernels.query, state.query, query), ConvolveAll(ops, kernels.key, state.key, key),
              ConvolveAll(ops, kernels.value, state.value, value),
              Source(state.query, query), Source(state.key, key), Source(state.value, value))
  }

  /** The histories after position t as windows of the sources. */
  function Boundary<F, S>(c: Convolved<F>, width: nat, t: nat, recurrent: S): State<F, S>
    requires t + width <= |c.querySource| && t + width <= |c.keySource| && t + width <= |c.valueSource|
  {
    State(c.querySource[t..t + width], c.keySource[t..t + width], c.valueSource[t..t + width], recurrent)
  }

  lemma BoundaryIsState<F, H, S, O>(ops: Ops<F, H, S, O>, kernels: Kernels<F>, state: State<F, S>, hidden: seq<H>,
                                    c: Convolved<F>, width: nat, t: nat)
    requires StateOk(kernels, state) && Fits(ops, kernels, hidden) && t < |hidden|
    requires |state.query| == |state.key| == |state.value| == width
    requires c.querySource == Source(state.query, Project(ops.query, hidden))
    requires c.keySource == Source(state.key, Project(ops.key, hidden))
    requires c.valueSource == Source(state.value, Project(ops.value, hidden))
    ensures Boundary(c, width, t, StateAfter(ops, kernels, state, hidden[..t + 1]).recurrent)
      == StateAfter(ops, kernels, state, hidden[..t + 1])
  {
    hide ConvolveAll, History, Project, StateAfter, Source, Fits;
    PrefixFits(ops, kernels, hidden, t + 1);
    HistoriesAfter(ops, kernels, state, hidden[..t + 1]);
    ArmBoundary(state.query, ops.query, hidden, t);
    ArmBoundary(state.key, ops.key, hidden, t);
    ArmBoundary(state.value, ops.value, hidden, t);
  }

  lemma PrefixFits<F, H, S, O>(ops: Ops<F, H, S, O>, kernels: Kernels<F>, hidden: seq<H>, n: nat)
    requires Fits(ops, kernels, hidden) && n <= |hidden|
    ensures Fits(ops, kernels, hidden[..n])
  {
  }

  lemma ProjectPrefix<F, H>(project: H -> Row<F>, hidden: seq<H>, n: nat)
    requires n <= |hidden|
    ensures Project(project, hidden)[..n] == Project(project, hidden[..n])
  {
  }

  /** One arm's window is the history that single steps leave. */
  lemma ArmBoundary<F, H>(history: seq<Row<F>>, project: H -> Row<F>, hidden: seq<H>, t: nat)
    requires |history| > 0 && t < |hidden|
    ensures Source(history, Project(project, hidden))[t..t + |history|]
      == History(history, Project(project, hidden[..t + 1]))
  {
    hide *;
    HistoryIsWindow(history, Project(project, hidden), t);
    ProjectPrefix(project, hidden, t + 1);
  }

  datatype Tape<F, S> = Tape(outputs: seq<Row<F>>, final: State<F, S>, boundaries: seq<State<F, S>>)

  /** The recurrence of `kda_recur_convolved_positions` over rows that are already convolved. */
  method RecurConvolvedPositions<F, H, S, O>(ops: Ops<F, H, S, O>, ghost kernels: Kernels<F>, state: State<F, S>,
                                             ghost hidden: seq<H>, convolved: Convolved<F>,
                                             featuresB: seq<Row<F>>, betas: seq<Row<F>>, width: nat, retain: bool)
    returns (tape: Tape<F, S>)
    requires StateOk(kernels, state) && Fits(ops, kernels, hidden) && 2 <= |hidden| <= MAX_POSITIONS
    requires |state.query| == |state.key| == |state.value| == width
    requires Wide(Project(ops.query, hidden), |kernels.query|) && Wide(Project(ops.key, hidden), |kernels.key|)
    requires Wide(Project(ops.value, hidden), |kernels.value|)
    requires convolved
      == ShortConvolve(ops, kernels, state, Project(ops.query, hidden), Project(ops.key, hidden),
                       Project(ops.value, hidden))
    requires featuresB == Project(ops.featureB, Project(ops.featureA, hidden)) && betas == Project(ops.beta, hidden)
    ensures |tape.outputs| == |hidden|
    ensures forall k :: 0 <= k < |hidden| ==>
      ops.finish(hidden[k], tape.outputs[k]) == OutputAt(ops, kernels, state, hidden, k)
    ensures tape.final == StateAfter(ops, kernels, state, hidden)
    ensures |tape.boundaries| == if retain then |hidden| else 0
    ensures forall k :: 0 <= k < |tape.boundaries| ==>
      tape.boundaries[k] == StateAfter(ops, kernels, state, hidden[..k + 1])
  {
    hide StateAfter, OutputAt, ConvolveAll, Boundary;
    var positions := |convolved.query|;
    var outputs, boundaries, recurrent := [], [], state.recurrent;
    assert StateAfter(ops, kernels, state, hidden[..0]).recurrent
      == recurrent by { NothingDecoded(ops, kernels, state, hidden); }
    for t := 0 to positions
      invariant |outputs| == t && |boundaries| == if retain then t else 0
      invariant recurrent == StateAfter(ops, kernels, state, hidden[..t]).recurrent
      invariant forall k :: 0 <= k < t ==> ops.finish(hidden[k], outputs[k]) == OutputAt(ops, kernels, state, hidden, k)
      invariant forall k :: 0 <= k < |boundaries| ==> boundaries[k] == StateAfter(ops, kernels, state, hidden[..k + 1])
    {
      OneMore(ops, kernels, state, hidden, t);
      recurrent := ops.update(recurrent, featuresB[t], ops.normalize(convolved.key[t]), convolved.value[t], betas[t]);
      outputs := outputs + [ops.read(ops.normalize(convolved.query[t]), recurrent)];
      if retain {
        BoundaryIsState(ops, kernels, state, hidden, convolved, width, t);
        boundaries := boundaries + [Boundary(convolved, width, t, recurrent)];
      }
    }
    assert hidden[..positions] == hidden;
    BoundaryIsState(ops, kernels, state, hidden, convolved, width, positions - 1);
    tape := Tape(outputs, Boundary(convolved, width, positions - 1, recurrent), boundaries);
  }

  lemma NothingDecoded<F, H, S, O>(ops: Ops<F, H, S, O>, kernels: Kernels<F>, state: State<F, S>, hidden: seq<H>)
    requires StateOk(kernels, state) && Fits(ops, kernels, hidden)
    ensures StateAfter(ops, kernels, state, hidden[..0]) == state
  {
  }

  lemma ProjectedFits<F, H, S, O>(ops: Ops<F, H, S, O>, kernels: Kernels<F>, hidden: seq<H>)
    requires Fits(ops, kernels, hidden)
    ensures Wide(Project(ops.query, hidden), |kernels.query|) && Wide(Project(ops.key, hidden), |kernels.key|)
    ensures Wide(Project(ops.value, hidden), |kernels.value|)
  {
    forall t | 0 <= t < |hidden| ensures hidden[t] in hidden {
    }
  }

  /**
   * The whole T-wide layer: project, convolve, recur and finish all positions.  Outputs, final state
   * and every retained boundary are those of decoding the positions one at a time, so boundary
   * k - 1 is the state after accepting k positions.
   */
  method WideTape<F, H, S, O>(ops: Ops<F, H, S, O>, kernels: Kernels<F>, state: State<F, S>, hidden: seq<H>,
                              retain: bool)
    returns (ok: bool, outputs: seq<O>, final: State<F, S>, boundaries: seq<State<F, S>>)
    requires StateOk(kernels, state) && Fits(ops, kernels, hidden) && |state.query| == |state.key| == |state.value|
    ensures ok <==> 2 <= |hidden| <= MAX_POSITIONS
    ensures ok ==> |outputs| == |hidden| && final == StateAfter(ops, kernels, state, hidden)
    ensures ok ==> forall k :: 0 <= k < |hidden| ==> outputs[k] == OutputAt(ops, kernels, state, hidden, k)
    ensures ok ==> |boundaries| == if retain then |hidden| else 0
    ensures ok ==> forall k :: 0 <= k < |boundaries| ==>
      boundaries[k] == StateAfter(ops, kernels, state, hidden[..k + 1])
    ensures ok ==> TapeIs(ops, kernels, state, hidden, outputs, final, boundaries)
  {
    hide StateAfter, OutputAt, ConvolveAll, TapeIs;
    outputs, final, boundaries := [], state, [];
    if |hidden| < 2 || |hidden| > MAX_POSITIONS { return false, outputs, final, boundaries; }
    ProjectedFits(ops, kernels, hidden);
    var query, key, value := Project(ops.query, hidden), Project(ops.key, hidden), Project(ops.value, hidden);
    var convolved := ShortConvolve(ops, kernels, state, query, key, value);
    var featuresB, betas := Project(ops.featureB, Project(ops.featureA, hidden)), Project(ops.beta, hidden);
    var tape :=
      RecurConvolvedPositions(ops, kernels, state, hidden, convolved, featuresB, betas, |state.query|, retain);
    outputs := seq(|hidden|, k requires 0 <= k < |hidden| == |tape.outputs| => ops.finish(hidden[k], tape.outputs[k]));
    ok, final, boundaries := true, tape.final, tape.boundaries;
    TapeSpelled(ops, kernels, state, hidden, outputs, final, boundaries);
  }

  // ---------------------------------------------------------------- the tape, position by position

  /** Row p of an arm: a projected position, or for negative p a row of the history, whose last row is row -1. */
  function RowAt<F, H>(history: seq<Row<F>>, project: H -> Row<F>, hidden: seq<H>, p: int): Row<F>
    requires -|history| <= p < |hidden|
  {
    if p >= 0 then project(hidden[p]) else history[|history| + p]
  }

  /** Every row an arm can meet has a channel for each list of taps. */
  predicate Channels<F, H>(kernel: seq<Row<F>>, history: seq<Row<F>>, project: H -> Row<F>, hidden: seq<H>) {
    && Wide(kernel, |history|)
    && forall p :: -|history| <= p < |hidden| ==> |RowAt(history, project, hidden, p)| == |kernel|
  }

  /** Channel c at position t: the row of the position meets the last tap, the row j before it the j-th last. */
  function Filtered<F, H, S, O>(ops: Ops<F, H, S, O>, kernel: seq<Row<F>>, history: seq<Row<F>>, project: H -> Row<F>,
                                hidden: seq<H>, t: nat, c: nat): F
    requires Channels(kernel, history, project, hidden) && t < |hidden| && c < |kernel|
  {
    var width := |history|;
    ops.silu(ops.sum(seq(width, j requires 0 <= j < width =>
      ops.mul(RowAt(history, project, hidden, t - (width - 1 - j))[c], kernel[c][j]))))
  }

  function FilteredRow<F, H, S, O>(ops: Ops<F, H, S, O>, kernel: seq<Row<F>>, history: seq<Row<F>>,
                                   project: H -> Row<F>, hidden: seq<H>, t: nat): (row: Row<F>)
    requires Channels(kernel, history, project, hidden) && t < |hidden|
    ensures |row| == |kernel|
  {
    seq(|kernel|, c requires 0 <= c < |kernel| => Filtered(ops, kernel, history, project, hidden, t, c))
  }

  predicate AllChannels<F, H, S, O>(ops: Ops<F, H, S, O>, kernels: Kernels<F>, state: State<F, S>, hidden: seq<H>) {
    && Channels(kernels.query, state.query, ops.query, hidden) && Channels(kernels.key, state.key, ops.key, hidden)
    && Channels(kernels.value, state.value, ops.value, hidden)
  }

  /** The recurrent matrix after n positions. */
  function RecurrentAt<F, H, S, O>(ops: Ops<F, H, S, O>, kernels: Kernels<F>, state: State<F, S>, hidden: seq<H>,
                                   n: nat): S
    requires AllChannels(ops, kernels, state, hidden) && n <= |hidden|
  {
    if n == 0 then state.recurrent else
      var h := hidden[n - 1];
      ops.update(RecurrentAt(ops, kernels, state, hidden, n - 1), ops.featureB(ops.featureA(h)),
                 ops.normalize(FilteredRow(ops, kernels.key, state.key, ops.key, hidden, n - 1)),
                 FilteredRow(ops, kernels.value, state.value, ops.value, hidden, n - 1), ops.beta(h))
  }

  /** The last rows of an arm after n positions. */
  predicate HoldsLast<F(==), H>(history: seq<Row<F>>, project: H -> Row<F>, hidden: seq<H>, n: nat, rows: seq<Row<F>>)
    requires n <= |hidden|
  {
    |rows| == |history| && forall j :: 0 <= j < |rows| ==> rows[j] == RowAt(history, project, hidden, n - |rows| + j)
  }

  /** A state after n positions: its histories are the last rows, its matrix the recurrence. */
  ghost predicate StateIs<F, H, S, O>(ops: Ops<F, H, S, O>, kernels: Kernels<F>, state: State<F, S>, hidden: seq<H>,
                                      n: nat, after: State<F, S>)
    requires AllChannels(ops, kernels, state, hidden) && n <= |hidden|
  {
    && HoldsLast(state.query, ops.query, hidden, n, after.query)
    && HoldsLast(state.key, ops.key, hidden, n, after.key)
    && HoldsLast(state.value, ops.value, hidden, n, after.value)
    && after.recurrent == RecurrentAt(ops, kernels, state, hidden, n)
  }

  ghost predicate OutputIs<F, H, S, O>(ops: Ops<F, H, S, O>, kernels: Kernels<F>, state: State<F, S>, hidden: seq<H>,
                                       t: nat, output: O)
    requires AllChannels(ops, kernels, state, hidden) && t < |hidden|
  {
    output == ops.finish(hidden[t], ops.read(
      ops.normalize(FilteredRow(ops, kernels.query, state.query, ops.query, hidden, t)),
      RecurrentAt(ops, kernels, state, hidden, t + 1)))
  }

  lemma FitsChannels<F, H, S, O>(ops: Ops<F, H, S, O>, kernels: Kernels<F>, state: State<F, S>, hidden: seq<H>)
    requires StateOk(kernels, state) && Fits(ops, kernels, hidden)
    ensures AllChannels(ops, kernels, state, hidden)
  {
    forall p | 0 <= p < |hidden| ensures hidden[p] in hidden {
    }
  }

  lemma HistoryHoldsLast<F, H>(history: seq<Row<F>>, project: H -> Row<F>, hidden: seq<H>, n: nat)
    requires |history| > 0 && n <= |hidden|
    ensures HoldsLast(history, project, hidden, n, History(history, Project(project, hidden[..n])))
  {
    hide *;
    if n == 0 {
      FirstRows(history, project, hidden);
    } else {
      ArmBoundary(history, project, hidden, n - 1);
      WindowHoldsLast(history, project, hidden, n, History(history, Project(project, hidden[..n])));
    }
  }

  lemma WindowHoldsLast<F, H>(history: seq<Row<F>>, project: H -> Row<F>, hidden: seq<H>, n: nat, rows: seq<Row<F>>)
    requires |history| > 0 && 0 < n <= |hidden|
    requires rows == Source(history, Project(project, hidden))[n - 1..n - 1 + |history|]
    ensures HoldsLast(history, project, hidden, n, rows)
  {
    hide Source, Project, RowAt;
    forall j | 0 <= j < |history| ensures rows[j] == RowAt(history, project, hidden, n - |history| + j) {
      SourceRow(history, project, hidden, n - 1 + j);
    }
  }

  lemma FirstRows<F, H>(history: seq<Row<F>>, project: H -> Row<F>, hidden: seq<H>)
    requires |history| > 0
    ensures HoldsLast(history, project, hidden, 0, History(history, Project(project, hidden[..0])))
  {
  }

  lemma SourceRow<F, H>(history: seq<Row<F>>, project: H -> Row<F>, hidden: seq<H>, i: nat)
    requires |history| > 0 && i < |history| - 1 + |hidden|
    ensures Source(history, Project(project, hidden))[i] == RowAt(history, project, hidden, i - (|history| - 1))
  {
  }

  lemma FilteredIsConvolved<F, H, S, O>(ops: Ops<F, H, S, O>, kernel: seq<Row<F>>, history: seq<Row<F>>,
                                        project: H -> Row<F>, hidden: seq<H>, t: nat)
    requires ArmOk(kernel, history) && Channels(kernel, history, project, hidden) && t < |hidden|
    requires Wide(Project(project, hidden), |kernel|)
    ensures ConvolveAll(ops, kernel, history, Project(project, hidden))[t]
      == FilteredRow(ops, kernel, history, project, hidden, t)
  {
    hide Project, Source, RowAt, Tap, Filtered;
    var width := |history|;
    var source := Source(history, Project(project, hidden));
    var window := source[t..t + width];
    forall j | 0 <= j < width ensures window[j] == RowAt(history, project, hidden, t - (width - 1 - j)) {
      SourceRow(history, project, hidden, t + j);
    }
    forall c | 0 <= c < |kernel|
      ensures Tap(ops, kernel[c], window, c) == Filtered(ops, kernel, history, project, hidden, t, c) {
      TapIsFiltered(ops, kernel, history, project, hidden, t, c, window);
    }
    assert ConvolveAll(ops, kernel, history, Project(project, hidden))[t] == Convolve(ops, kernel, window);
    assert Convolve(ops, kernel, window) == FilteredRow(ops, kernel, history, project, hidden, t);
  }

  lemma TapIsFiltered<F, H, S, O>(ops: Ops<F, H, S, O>, kernel: seq<Row<F>>, history: seq<Row<F>>, project: H -> Row<F>,
                                  hidden: seq<H>, t: nat, c: nat, window: seq<Row<F>>)
    requires Channels(kernel, history, project, hidden) && t < |hidden| && c < |kernel|
    requires |window| == |history| && Wide(window, |kernel|)
    requires forall j :: 0 <= j < |window| ==> window[j] == RowAt(history, project, hidden, t - (|history| - 1 - j))
    ensures Tap(ops, kernel[c], window, c) == Filtered(ops, kernel, history, project, hidden, t, c)
  {
    hide RowAt;
    var width := |history|;
    assert seq(|window|, j requires 0 <= j < |window| => ops.mul(window[j][c], kernel[c][j])) ==
      seq(width, j requires 0 <= j < width =>
        ops.mul(RowAt(history, project, hidden, t - (width - 1 - j))[c], kernel[c][j]));
  }

  lemma {:induction false} RecurrentIs<F, H, S, O>(ops: Ops<F, H, S, O>, kernels: Kernels<F>, state: State<F, S>,
                                                   hidden: seq<H>, n: nat)
    requires StateOk(kernels, state) && Fits(ops, kernels, hidden) && AllChannels(ops, kernels, state, hidden)
    requires n <= |hidden|
    ensures StateAfter(ops, kernels, state, hidden[..n]).recurrent == RecurrentAt(ops, kernels, state, hidden, n)
  {
    hide ConvolveAll, Channels, Filtered, FilteredRow, History, Shift, Convolve;
    if n == 0 {
      NothingDecoded(ops, kernels, state, hidden);
    } else {
      RecurrentIs(ops, kernels, state, hidden, n - 1);
      ProjectedFits(ops, kernels, hidden);
      OneMore(ops, kernels, state, hidden, n - 1);
      FilteredIsConvolved(ops, kernels.key, state.key, ops.key, hidden, n - 1);
      FilteredIsConvolved(ops, kernels.value, state.value, ops.value, hidden, n - 1);
    }
  }

  /** Decoding positions one at a time leaves this state, */
  lemma StateSpelled<F, H, S, O>(ops: Ops<F, H, S, O>, kernels: Kernels<F>, state: State<F, S>, hidden: seq<H>, n: nat)
    requires StateOk(kernels, state) && Fits(ops, kernels, hidden) && AllChannels(ops, kernels, state, hidden)
    requires n <= |hidden|
    ensures StateIs(ops, kernels, state, hidden, n, StateAfter(ops, kernels, state, hidden[..n]))
  {
    hide HoldsLast, StateAfter, Channels, RecurrentAt, History, Project, Fits;
    PrefixFits(ops, kernels, hidden, n);
    HistoriesAfter(ops, kernels, state, hidden[..n]);
    HistoryHoldsLast(state.query, ops.query, hidden, n);
    HistoryHoldsLast(state.key, ops.key, hidden, n);
    HistoryHoldsLast(state.value, ops.value, hidden, n);
    RecurrentIs(ops, kernels, state, hidden, n);
  }

  /** and gives these outputs. */
  lemma OutputSpelled<F, H, S, O>(ops: Ops<F, H, S, O>, kernels: Kernels<F>, state: State<F, S>, hidden: seq<H>, t: nat)
    requires StateOk(kernels, state) && Fits(ops, kernels, hidden) && AllChannels(ops, kernels, state, hidden)
    requires t < |hidden|
    ensures OutputIs(ops, kernels, state, hidden, t, OutputAt(ops, kernels, state, hidden, t))
  {
    hide StateAfter, OutputAt, ConvolveAll, Channels, FilteredRow, RecurrentAt;
    ProjectedFits(ops, kernels, hidden);
    OneMore(ops, kernels, state, hidden, t);
    FilteredIsConvolved(ops, kernels.query, state.query, ops.query, hidden, t);
    RecurrentIs(ops, kernels, state, hidden, t + 1);
  }

  ghost predicate TapeIs<F, H, S, O>(ops: Ops<F, H, S, O>, kernels: Kernels<F>, state: State<F, S>, hidden: seq<H>,
                                     outputs: seq<O>, final: State<F, S>, boundaries: seq<State<F, S>>) {
    && AllChannels(ops, kernels, state, hidden) && |outputs| == |hidden| && |boundaries| <= |hidden|
    && (forall t :: 0 <= t < |hidden| ==> OutputIs(ops, kernels, state, hidden, t, outputs[t]))
    && StateIs(ops, kernels, state, hidden, |hidden|, final)
    && forall k :: 0 <= k < |boundaries| ==> StateIs(ops, kernels, state, hidden, k + 1, boundaries[k])
  }

  lemma TapeSpelled<F, H, S, O>(ops: Ops<F, H, S, O>, kernels: Kernels<F>, state: State<F, S>, hidden: seq<H>,
                                outputs: seq<O>, final: State<F, S>, boundaries: seq<State<F, S>>)
    requires StateOk(kernels, state) && Fits(ops, kernels, hidden)
    requires |outputs| == |hidden| && final == StateAfter(ops, kernels, state, hidden) && |boundaries| <= |hidden|
    requires forall k :: 0 <= k < |hidden| ==> outputs[k] == OutputAt(ops, kernels, state, hidden, k)
    requires forall k :: 0 <= k < |boundaries| ==> boundaries[k] == StateAfter(ops, kernels, state, hidden[..k + 1])
    ensures TapeIs(ops, kernels, state, hidden, outputs, final, boundaries)
  {
    hide StateAfter, OutputAt, OutputIs, StateIs, Fits, StateOk, AllChannels;
    FitsChannels(ops, kernels, state, hidden);
    forall t | 0 <= t < |hidden| ensures OutputIs(ops, kernels, state, hidden, t, outputs[t]) {
      OutputSpelled(ops, kernels, state, hidden, t);
    }
    assert hidden[..|hidden|] == hidden;
    StateSpelled(ops, kernels, state, hidden, |hidden|);
    forall k | 0 <= k < |boundaries| ensures StateIs(ops, kernels, state, hidden, k + 1, boundaries[k]) {
      StateSpelled(ops, kernels, state, hidden, k + 1);
    }
  }

  // ---------------------------------------------------------------- the three arms bundled

  /** Rows of three arms side by side. */
  function Beside<F>(a: seq<Row<F>>, b: seq<Row<F>>, c: seq<Row<F>>): (rows: seq<Row<F>>)
    requires |a| == |b| == |c|
    ensures |rows| == |a| && forall t :: 0 <= t < |a| ==> rows[t] == a[t] + b[t] + c[t]
  {
    seq(|a|, t requires 0 <= t < |a| => a[t] + b[t] + c[t])
  }

  /** One convolution of the adjacent arms is the three convolutions side by side. */
  lemma BundledConvolution<F, H, S, O>(ops: Ops<F, H, S, O>, kernels: Kernels<F>, a: seq<Row<F>>, b: seq<Row<F>>,
                                       c: seq<Row<F>>)
    requires |a| == |b| == |c| && Wide(a, |kernels.query|) && Wide(b, |kernels.key|) && Wide(c, |kernels.value|)
    requires Wide(kernels.query, |a|) && Wide(kernels.key, |a|) && Wide(kernels.value, |a|)
    ensures Wide(kernels.query + kernels.key + kernels.value, |a|)
    ensures Wide(Beside(a, b, c), |kernels.query + kernels.key + kernels.value|)
    ensures Convolve(ops, kernels.query + kernels.key + kernels.value, Beside(a, b, c)) ==
      Convolve(ops, kernels.query, a) + Convolve(ops, kernels.key, b) + Convolve(ops, kernels.value, c)
  {
    var kernel, window := kernels.query + kernels.key + kernels.value, Beside(a, b, c);
    var whole, parts :=
      Convolve(ops, kernel, window), Convolve(ops, kernels.query, a) + Convolve(ops, kernels.key, b)
        + Convolve(ops, kernels.value, c);
    forall i | 0 <= i < |kernel| ensures whole[i] == parts[i] {
      var q, k := |kernels.query|, |kernels.key|;
      if i < q {
        SameTap(ops, kernel[i], window, i, a, i);
      } else if i < q + k {
        SameTap(ops, kernel[i], window, i, b, i - q);
      } else {
        SameTap(ops, kernel[i], window, i, c, i - q - k);
      }
      hide Tap;
    }
  }

  lemma SameTap<F, H, S, O>(ops: Ops<F, H, S, O>, taps: Row<F>, window: seq<Row<F>>, i: nat, arm: seq<Row<F>>, j: nat)
    requires |taps| == |window| == |arm| && forall t :: 0 <= t < |window| ==>
      i < |window[t]| && j < |arm[t]| && window[t][i] == arm[t][j]
    ensures Tap(ops, taps, window, i) == Tap(ops, taps, arm, j)
  {
    assert seq(|window|, t requires 0 <= t < |window| => ops.mul(window[t][i], taps[t])) ==
      seq(|arm|, t requires 0 <= t < |arm| => ops.mul(arm[t][j], taps[t]));
  }
}
