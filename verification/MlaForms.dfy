/**
 * The two representations of the MLA cache in native/provider_gate/provider_mla.cpp, as kernels of one
 * layer: the expanded one caches the keys and values of every head, the compact one caches the latent
 * and the positional key and absorbs the projection into the query and the output.  Over the reals a
 * cache decodes the same outputs in either.
 */
module MlaForms {
  import opened MlaAttention
  import opened MlaCache
  import opened MlaDecoding

  /**
   * One layer: its packed key/value-b projection, what a position caches before expansion, the two parts
   * of a head's query, the scaling of scores, and the rest of the layer.
   */
  datatype Layer<!H, O> = Layer(
    shape: Shape, packed: seq<Vec>, project: H -> Position, nope: (H, nat) -> Vec, rope: (H, nat) -> Vec,
    scaling: real, exp: real -> real, inverse: real -> real, output: (H, seq<Vec>) -> O)

  ghost predicate Fitting<H(!new), O>(l: Layer<H, O>) {
    && Packed(l.shape, l.packed) && (forall h :: Fits(l.shape, l.project(h)))
    && forall h, i :: |l.nope(h, i)| == l.shape.nope && |l.rope(h, i)| == l.shape.rope
  }

  // The kernels are total; what they give for rows of another shape does not matter.

  ghost function ExpandedScore<H(!new), O>(l: Layer<H, O>, h: H, i: nat, key: seq<Vec>): real
    requires Fitting(l)
  {
    if i < |key| && |key[i]| == l.shape.nope + l.shape.rope
    then l.scaling * Dot(l.nope(h, i) + l.rope(h, i), key[i])
    else 0.0
  }

  ghost function ExpandedOps<H(!new), O>(l: Layer<H, O>): (ops: Ops<H, seq<Vec>, seq<Vec>, O>)
    requires Fitting(l)
  {
    Ops(
      (h: H) => seq(l.shape.heads, i requires 0 <= i < l.shape.heads =>
        ExpandedKey(l.shape, l.packed, i, l.project(h))),
      (h: H) => seq(l.shape.heads, i requires 0 <= i < l.shape.heads =>
        ExpandedValue(l.shape, l.packed, i, l.project(h))),
      l.shape.heads, l.shape.valueDim,
      (h: H, i: nat, key: seq<Vec>, value: seq<Vec>) => ExpandedScore(l, h, i, key),
      (i: nat, key: seq<Vec>, value: seq<Vec>, c: nat) => if i < |value| && c < |value[i]| then value[i][c] else 0.0,
      l.exp, l.inverse, l.output)
  }

  ghost function CompactScoreOf<H(!new), O>(l: Layer<H, O>, h: H, i: nat, latent: Vec, rope: Vec): real
    requires Fitting(l)
  {
    if i < l.shape.heads && |latent| == l.shape.rank && |rope| == l.shape.rope
    then l.scaling * (Dot(Combine(l.nope(h, i), KeyUp(l.shape, l.packed, i), l.shape.rank), latent)
      + Dot(l.rope(h, i), rope))
    else 0.0
  }

  /** The value half of the projection, applied to what a head took from the latents. */
  ghost function Lift<H(!new), O>(l: Layer<H, O>, rows: seq<Vec>): (lifted: seq<Vec>)
    requires Fitting(l)
    ensures |lifted| == |rows|
  {
    seq(|rows|, i requires 0 <= i < |rows| =>
      if i < l.shape.heads && |rows[i]| == l.shape.rank then Apply(ValueUp(l.shape, l.packed, i), rows[i]) else rows[i])
  }

  ghost function CompactOps<H(!new), O>(l: Layer<H, O>): (ops: Ops<H, Vec, Vec, O>)
    requires Fitting(l)
  {
    Ops(
      (h: H) => l.project(h).latent, (h: H) => l.project(h).rope, l.shape.heads, l.shape.rank,
      (h: H, i: nat, latent: Vec, rope: Vec) => CompactScoreOf(l, h, i, latent, rope),
      (i: nat, latent: Vec, rope: Vec, c: nat) => if c < |latent| then latent[c] else 0.0,
      l.exp, l.inverse, (h: H, rows: seq<Vec>) => l.output(h, Lift(l, rows)))
  }

  /** Scores to softmax weights, for the last of as many positions. */
  function Weights(scaling: real, exp: real -> real, inverse: real -> real, scores: Vec): (weights: Vec)
    ensures |weights| == |scores|
  {
    if scores == [] then [] else
      var masked := Masked(Scaled(scaling, scores), |scores| - 1, 1, 0);
      var e := Exponentials(exp, masked, Largest(masked));
      Times(inverse(Total(e)), e)
  }

  function Scaled(scaling: real, scores: Vec): (scaled: Vec)
    ensures |scaled| == |scores|
  {
    seq(|scores|, k requires 0 <= k < |scores| => scaling * scores[k])
  }

  ghost function Positions<H, O>(l: Layer<H, O>, context: seq<H>): (positions: seq<Position>)
    ensures |positions| == |context|
  {
    seq(|context|, k requires 0 <= k < |context| => l.project(context[k]))
  }

  lemma PositionsFit<H(!new), O>(l: Layer<H, O>, context: seq<H>)
    requires Fitting(l)
    ensures AllFit(l.shape, Positions(l, context))
  {
  }

  /** A head in the expanded representation is expanded attention over the context. */
  lemma ExpandedHead<H(!new), O>(l: Layer<H, O>, h: H, i: nat, context: seq<H>)
    requires Fitting(l) && context != [] && i < l.shape.heads
    ensures var ops := ExpandedOps(l);
      AllFit(l.shape, Positions(l, context)) &&
      Head(ops, h, i, MapKeys(ops, context), MapValues(ops, context), |context| - 1, 1, 0)
      == ExpandedAttention(l.shape, l.packed, i, l.nope(h, i), l.rope(h, i), Positions(l, context),
                           s => Weights(l.scaling, l.exp, l.inverse, s))
  {
    hide Combine, Masked, Exponentials, Largest, Total, Times, Dot, ExpandedKey, ExpandedValue;
    var ops, ps := ExpandedOps(l), Positions(l, context);
    PositionsFit(l, context);
    var keys, values := MapKeys(ops, context), MapValues(ops, context);
    var scores := seq(|ps|, k requires 0 <= k < |ps| =>
      Dot(l.nope(h, i) + l.rope(h, i), ExpandedKey(l.shape, l.packed, i, ps[k])));
    var rows := seq(|ps|, k requires 0 <= k < |ps| => ExpandedValue(l.shape, l.packed, i, ps[k]));
    forall k | 0 <= k < |ps| ensures Scores(ops, h, i, keys, values)[k] == Scaled(l.scaling, scores)[k] {
      assert keys[k][i] == ExpandedKey(l.shape, l.packed, i, ps[k]);
    }
    assert Scores(ops, h, i, keys, values) == Scaled(l.scaling, scores);
    forall k | 0 <= k < |ps| ensures Contents(ops, i, keys, values)[k] == rows[k] {
      assert values[k][i] == ExpandedValue(l.shape, l.packed, i, ps[k]);
    }
    assert Contents(ops, i, keys, values) == rows;
  }

  /** A head in the compact representation, lifted, is compact attention over the context. */
  lemma CompactHead<H(!new), O>(l: Layer<H, O>, h: H, i: nat, context: seq<H>)
    requires Fitting(l) && context != [] && i < l.shape.heads
    ensures var ops := CompactOps(l);
      AllFit(l.shape, Positions(l, context)) &&
      Apply(ValueUp(l.shape, l.packed, i),
            Head(ops, h, i, MapKeys(ops, context), MapValues(ops, context), |context| - 1, 1, 0))
      == CompactAttention(l.shape, l.packed, i, l.nope(h, i), l.rope(h, i), Positions(l, context),
                          s => Weights(l.scaling, l.exp, l.inverse, s))
  {
    hide Combine, Masked, Exponentials, Largest, Total, Times, Dot, KeyUp, ValueUp, Apply;
    var ops, ps := CompactOps(l), Positions(l, context);
    PositionsFit(l, context);
    var keys, values := MapKeys(ops, context), MapValues(ops, context);
    var query := Combine(l.nope(h, i), KeyUp(l.shape, l.packed, i), l.shape.rank);
    var scores := seq(|ps|, k requires 0 <= k < |ps| => Dot(query, ps[k].latent) + Dot(l.rope(h, i), ps[k].rope));
    forall k | 0 <= k < |ps| ensures Scores(ops, h, i, keys, values)[k] == Scaled(l.scaling, scores)[k] {
      assert Fits(l.shape, ps[k]) && keys[k] == ps[k].latent && values[k] == ps[k].rope;
    }
    assert Scores(ops, h, i, keys, values) == Scaled(l.scaling, scores);
    forall k | 0 <= k < |ps| ensures Contents(ops, i, keys, values)[k] == Latents(ps)[k] {
      assert Fits(l.shape, ps[k]) && keys[k] == ps[k].latent;
    }
    assert Contents(ops, i, keys, values) == Latents(ps);
  }

  /** One position behind a context has the same output in either representation. */
  lemma SameSingle<H(!new), O>(l: Layer<H, O>, h: H, context: seq<H>)
    requires Fitting(l) && context != []
    ensures var e, c := ExpandedOps(l), CompactOps(l);
      Single(e, h, MapKeys(e, context), MapValues(e, context))
        == Single(c, h, MapKeys(c, context), MapValues(c, context))
  {
    hide Head, MapKeys, MapValues, Apply, ValueUp, CompactAttention, ExpandedAttention;
    var e, c, n := ExpandedOps(l), CompactOps(l), |context| - 1;
    var expanded := seq(l.shape.heads, i requires 0 <= i =>
      Head(e, h, i, MapKeys(e, context), MapValues(e, context), n, 1, 0));
    var compact := seq(l.shape.heads, i requires 0 <= i =>
      Head(c, h, i, MapKeys(c, context), MapValues(c, context), n, 1, 0));
    forall i | 0 <= i < l.shape.heads ensures Lift(l, compact)[i] == expanded[i] {
      PositionsFit(l, context);
      ExpandedHead(l, h, i, context);
      CompactHead(l, h, i, context);
      AbsorbedIsExpanded(l.shape, l.packed, i, l.nope(h, i), l.rope(h, i), Positions(l, context),
                         s => Weights(l.scaling, l.exp, l.inverse, s));
      HeadWidth(c, h, i, context);
    }
    assert Lift(l, compact) == expanded;
  }

  lemma HeadWidth<H, K, V, O>(ops: Ops<H, K, V, O>, h: H, i: nat, context: seq<H>)
    requires context != []
    ensures |Head(ops, h, i, MapKeys(ops, context), MapValues(ops, context), |context| - 1, 1, 0)| == ops.columns
  {
  }

  /** Any positions decoded behind any committed ones have the same outputs in either representation. */
  lemma {:induction false} SameOutputs<H(!new), O>(l: Layer<H, O>, before: seq<H>, hidden: seq<H>)
    requires Fitting(l)
    ensures var e, c := ExpandedOps(l), CompactOps(l);
      Outputs(e, MapKeys(e, before), MapValues(e, before), hidden)
        == Outputs(c, MapKeys(c, before), MapValues(c, before), hidden)
  {
    hide Single, ExpandedOps, CompactOps;
    if hidden != [] {
      var n := |hidden| - 1;
      var e, c := ExpandedOps(l), CompactOps(l);
      SameOutputs(l, before, hidden[..n]);
      SameSingle(l, hidden[n], before + hidden);
      assert MapKeys(e, before + hidden) == MapKeys(e, before) + MapKeys(e, hidden);
      assert MapValues(e, before + hidden) == MapValues(e, before) + MapValues(e, hidden);
      assert MapKeys(c, before + hidden) == MapKeys(c, before) + MapKeys(c, hidden);
      assert MapValues(c, before + hidden) == MapValues(c, before) + MapValues(c, hidden);
    }
  }
}
