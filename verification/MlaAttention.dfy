/**
 * The attention algebra of native/provider_gate/provider_mla.cpp over the reals.  The compact form
 * pushes the query through the key half of the packed projection and pulls the weighted latent through
 * its value half; it equals the form that expands every cached position first.  Under the causal block
 * mask a row of a tile equals the same position decoded alone.
 */
module MlaAttention {

  // ---------------------------------------------------------------- vectors and matrices

  type Vec = seq<real>

  /** A product; its own name lets proofs treat it as a whole. */
  function Mul(a: real, b: real): real { a * b }

  function Zero(n: nat): Vec { seq(n, _ => 0.0) }

  function Plus(a: Vec, b: Vec): (c: Vec)
    requires |a| == |b|
    ensures |c| == |a| && forall i :: 0 <= i < |a| ==> c[i] == a[i] + b[i]
  {
    seq(|a|, i requires 0 <= i < |a| => a[i] + b[i])
  }

  function Times(s: real, a: Vec): (c: Vec)
    ensures |c| == |a| && forall i :: 0 <= i < |a| ==> c[i] == Mul(s, a[i])
  {
    seq(|a|, i requires 0 <= i < |a| => Mul(s, a[i]))
  }

  function Dot(a: Vec, b: Vec): real
    requires |a| == |b|
  {
    if a == [] then 0.0 else Dot(a[..|a| - 1], b[..|b| - 1]) + Mul(a[|a| - 1], b[|b| - 1])
  }

  predicate Shaped(m: seq<Vec>, columns: nat) {
    forall i :: 0 <= i < |m| ==> |m[i]| == columns
  }

  /** The rows of a projection applied to one vector. */
  function Apply(m: seq<Vec>, x: Vec): (y: Vec)
    requires Shaped(m, |x|)
    ensures |y| == |m| && forall i :: 0 <= i < |m| ==> y[i] == Dot(m[i], x)
  {
    seq(|m|, i requires 0 <= i < |m| => Dot(m[i], x))
  }

  /** The weighted sum of rows. */
  function Combine(w: Vec, m: seq<Vec>, columns: nat): (c: Vec)
    requires |w| == |m| && Shaped(m, columns)
    ensures |c| == columns
  {
    if m == [] then Zero(columns) else
      var n := |m| - 1;
      Plus(Combine(w[..n], m[..n], columns), Times(w[n], m[n]))
  }

  lemma {:induction false} DotCommutes(a: Vec, b: Vec)
    requires |a| == |b|
    ensures Dot(a, b) == Dot(b, a)
  {
    if a != [] {
      DotCommutes(a[..|a| - 1], b[..|b| - 1]);
    }
  }

  lemma {:induction false} DotZero(y: Vec)
    ensures Dot(Zero(|y|), y) == 0.0
  {
    if y != [] {
      DotZero(y[..|y| - 1]);
      assert Zero(|y|)[..|y| - 1] == Zero(|y| - 1);
    }
  }

  /** Dot is linear in its first argument. */
  lemma {:induction false} DotLinear(a: Vec, s: real, b: Vec, c: Vec, y: Vec)
    requires |a| == |b| == |c| == |y| && forall i :: 0 <= i < |c| ==> c[i] == a[i] + Mul(s, b[i])
    ensures Dot(c, y) == Dot(a, y) + Mul(s, Dot(b, y))
  {
    ScaledZero(s);
    hide Mul;
    if y != [] {
      var n := |y| - 1;
      DotLinear(a[..n], s, b[..n], c[..n], y[..n]);
      Distribute(a[n], s, b[n], y[n], Dot(b[..n], y[..n]));
    }
  }

  lemma ScaledZero(s: real)
    ensures Mul(s, 0.0) == 0.0
  {
  }

  lemma Distribute(a: real, s: real, b: real, y: real, rest: real)
    ensures Mul(a + Mul(s, b), y) + Mul(s, rest) == Mul(a, y) + Mul(s, rest + Mul(b, y))
  {
  }

  lemma {:induction false} DotConcat(a: Vec, b: Vec, x: Vec, y: Vec)
    requires |a| == |x| && |b| == |y|
    ensures Dot(a + b, x + y) == Dot(a, x) + Dot(b, y)
  {
    if b == [] {
      assert a + b == a && x + y == x;
    } else {
      var n := |b| - 1;
      DotConcat(a, b[..n], x, y[..n]);
      assert (a + b)[..|a| + n] == a + b[..n] && (x + y)[..|a| + n] == x + y[..n];
    }
  }

  /** A weighted sum of rows dotted with a vector is the weights dotted with the rows applied to it. */
  lemma {:induction false} DotCombine(w: Vec, m: seq<Vec>, y: Vec)
    requires |w| == |m| && Shaped(m, |y|)
    ensures Dot(Combine(w, m, |y|), y) == Dot(w, Apply(m, y))
  {
    hide Mul;
    if m == [] {
      DotZero(y);
    } else {
      var n := |m| - 1;
      var head, z := Combine(w[..n], m[..n], |y|), Apply(m, y);
      assert z[..n] == Apply(m[..n], y);
      assert Dot(w, z) == Dot(w[..n], z[..n]) + Mul(w[n], Dot(m[n], y));
      assert Combine(w, m, |y|) == Plus(head, Times(w[n], m[n]));
      hide Combine, Times, Zero, Shaped, Dot, Apply;
      DotCombine(w[..n], m[..n], y);
      DotLinear(head, w[n], m[n], Plus(head, Times(w[n], m[n])), y);
    }
  }

  /** Every row pushed through a projection. */
  function Expand(u: seq<Vec>, rows: seq<Vec>, rank: nat): (m: seq<Vec>)
    requires Shaped(u, rank) && Shaped(rows, rank)
    ensures |m| == |rows| && Shaped(m, |u|) && forall k :: 0 <= k < |rows| ==> m[k] == Apply(u, rows[k])
  {
    seq(|rows|, k requires 0 <= k < |rows| => Apply(u, rows[k]))
  }

  /** A projection is linear. */
  lemma ApplyLinear(u: seq<Vec>, a: Vec, s: real, b: Vec)
    requires |a| == |b| && Shaped(u, |a|)
    ensures Apply(u, Plus(a, Times(s, b))) == Plus(Apply(u, a), Times(s, Apply(u, b)))
  {
    hide Mul;
    var c := Plus(a, Times(s, b));
    forall i | 0 <= i < |u| ensures Dot(u[i], c) == Dot(u[i], a) + Mul(s, Dot(u[i], b)) {
      DotLinear(a, s, b, c, u[i]);
      DotCommutes(u[i], c);
      DotCommutes(u[i], a);
      DotCommutes(u[i], b);
    }
    var left, right := Apply(u, c), Plus(Apply(u, a), Times(s, Apply(u, b)));
    forall i | 0 <= i < |u| ensures left[i] == right[i] {
      assert left[i] == Dot(u[i], c) && right[i] == Apply(u, a)[i] + Mul(s, Apply(u, b)[i]);
    }
  }

  lemma ApplyZero(u: seq<Vec>, rank: nat)
    requires Shaped(u, rank)
    ensures Apply(u, Zero(rank)) == Zero(|u|)
  {
    forall i | 0 <= i < |u| ensures Dot(u[i], Zero(rank)) == 0.0 {
      DotZero(u[i]);
      DotCommutes(u[i], Zero(rank));
    }
  }

  /** Projecting a weighted sum is weighting the projections. */
  lemma {:induction false} ApplyCombine(u: seq<Vec>, w: Vec, rows: seq<Vec>, rank: nat)
    requires Shaped(u, rank) && Shaped(rows, rank) && |w| == |rows|
    ensures Apply(u, Combine(w, rows, rank)) == Combine(w, Expand(u, rows, rank), |u|)
  {
    hide Apply, Plus, Times, Dot, Zero;
    if rows == [] {
      ApplyZero(u, rank);
    } else {
      var n := |rows| - 1;
      ApplyCombine(u, w[..n], rows[..n], rank);
      assert Expand(u, rows, rank)[..n] == Expand(u, rows[..n], rank);
      ApplyLinear(u, Combine(w[..n], rows[..n], rank), w[n], rows[n]);
    }
  }

  // ---------------------------------------------------------------- expanded and compact attention

  datatype Shape = Shape(heads: nat, nope: nat, rope: nat, valueDim: nat, rank: nat)

  function PackedRows(shape: Shape): nat { shape.heads * (shape.nope + shape.valueDim) }

  /** The packed key/value-b projection: for each head its key rows, then its value rows. */
  predicate Packed(shape: Shape, packed: seq<Vec>) {
    |packed| == PackedRows(shape) && Shaped(packed, shape.rank)
  }

  /** The rows of one head lie within the packed projection. */
  lemma HeadFits(shape: Shape, h: nat)
    requires h < shape.heads
    ensures HeadRow(shape, h) + shape.nope + shape.valueDim <= PackedRows(shape)
  {
    var width := shape.nope + shape.valueDim;
    assert (h + 1) * width <= shape.heads * width;
  }

  function HeadRow(shape: Shape, h: nat): nat { h * (shape.nope + shape.valueDim) }

  function KeyUp(shape: Shape, packed: seq<Vec>, h: nat): (m: seq<Vec>)
    requires Packed(shape, packed) && h < shape.heads
    ensures |m| == shape.nope && Shaped(m, shape.rank)
  {
    HeadFits(shape, h);
    packed[HeadRow(shape, h)..HeadRow(shape, h) + shape.nope]
  }

  function ValueUp(shape: Shape, packed: seq<Vec>, h: nat): (m: seq<Vec>)
    requires Packed(shape, packed) && h < shape.heads
    ensures |m| == shape.valueDim && Shaped(m, shape.rank)
  {
    HeadFits(shape, h);
    packed[HeadRow(shape, h) + shape.nope..HeadRow(shape, h) + shape.nope + shape.valueDim]
  }

  /** A cached position in the compact representation. */
  datatype Position = Position(latent: Vec, rope: Vec)

  predicate Fits(shape: Shape, p: Position) { |p.latent| == shape.rank && |p.rope| == shape.rope }

  predicate AllFit(shape: Shape, context: seq<Position>) {
    forall k :: 0 <= k < |context| ==> Fits(shape, context[k])
  }

  /** What the expanded representation caches of a position for one head. */
  function ExpandedKey(shape: Shape, packed: seq<Vec>, h: nat, p: Position): (key: Vec)
    requires Packed(shape, packed) && h < shape.heads && Fits(shape, p)
    ensures |key| == shape.nope + shape.rope
  {
    HeadFits(shape, h);
    Apply(packed, p.latent)[HeadRow(shape, h)..HeadRow(shape, h) + shape.nope] + p.rope
  }

  function ExpandedValue(shape: Shape, packed: seq<Vec>, h: nat, p: Position): (value: Vec)
    requires Packed(shape, packed) && h < shape.heads && Fits(shape, p)
    ensures |value| == shape.valueDim
  {
    HeadFits(shape, h);
    Apply(packed, p.latent)[HeadRow(shape, h) + shape.nope..HeadRow(shape, h) + shape.nope + shape.valueDim]
  }

  /** Row by row: a head's keys and then its values are the products of its own rows of the projection. */
  lemma HeadLayout(shape: Shape, packed: seq<Vec>, h: nat, p: Position)
    requires Packed(shape, packed) && h < shape.heads && Fits(shape, p)
    ensures (h + 1) * (shape.nope + shape.valueDim) <= |packed|
    ensures forall i :: 0 <= i < shape.nope ==>
      ExpandedKey(shape, packed, h, p)[i] == Dot(packed[h * (shape.nope + shape.valueDim) + i], p.latent)
    ensures ExpandedKey(shape, packed, h, p)[shape.nope..] == p.rope
    ensures forall i :: 0 <= i < shape.valueDim ==>
      ExpandedValue(shape, packed, h, p)[i]
        == Dot(packed[h * (shape.nope + shape.valueDim) + shape.nope + i], p.latent)
  {
    hide Dot;
    HeadFits(shape, h);
  }

  /** Scores to weights: scaling, mask and softmax, of which nothing but the length is assumed. */
  ghost predicate KeepsLength(weigh: Vec -> Vec) {
    forall s: Vec :: |weigh(s)| == |s|
  }

  ghost function ExpandedAttention(shape: Shape, packed: seq<Vec>, h: nat, nope: Vec, rope: Vec, context: seq<Position>,
                                   weigh: Vec -> Vec): Vec
    requires Packed(shape, packed) && h < shape.heads && AllFit(shape, context) && KeepsLength(weigh)
    requires |nope| == shape.nope && |rope| == shape.rope
  {
    var scores :=
      seq(|context|, k requires 0 <= k < |context| => Dot(nope + rope, ExpandedKey(shape, packed, h, context[k])));
    var values := seq(|context|, k requires 0 <= k < |context| => ExpandedValue(shape, packed, h, context[k]));
    Combine(weigh(scores), values, shape.valueDim)
  }

  function Latents(context: seq<Position>): (rows: seq<Vec>)
    ensures |rows| == |context| && forall k :: 0 <= k < |context| ==> rows[k] == context[k].latent
  {
    seq(|context|, k requires 0 <= k < |context| => context[k].latent)
  }

  ghost function CompactAttention(shape: Shape, packed: seq<Vec>, h: nat, nope: Vec, rope: Vec, context: seq<Position>,
                                  weigh: Vec -> Vec): Vec
    requires Packed(shape, packed) && h < shape.heads && AllFit(shape, context) && KeepsLength(weigh)
    requires |nope| == shape.nope && |rope| == shape.rope
  {
    var query := Combine(nope, KeyUp(shape, packed, h), shape.rank);
    var scores :=
      seq(|context|, k requires 0 <= k < |context| => Dot(query, context[k].latent) + Dot(rope, context[k].rope));
    Apply(ValueUp(shape, packed, h), Combine(weigh(scores), Latents(context), shape.rank))
  }

  lemma CompactScore(shape: Shape, packed: seq<Vec>, h: nat, nope: Vec, rope: Vec, p: Position)
    requires Packed(shape, packed) && h < shape.heads && Fits(shape, p) && |nope| == shape.nope && |rope| == shape.rope
    ensures Dot(Combine(nope, KeyUp(shape, packed, h), shape.rank), p.latent) + Dot(rope, p.rope)
      == Dot(nope + rope, ExpandedKey(shape, packed, h, p))
  {
    hide Mul, Dot, Combine, HeadRow, PackedRows;
    HeadFits(shape, h);
    var keys := Apply(packed, p.latent)[HeadRow(shape, h)..HeadRow(shape, h) + shape.nope];
    DotCombine(nope, KeyUp(shape, packed, h), p.latent);
    assert Apply(KeyUp(shape, packed, h), p.latent) == keys;
    DotConcat(nope, rope, keys, p.rope);
  }

  /** Absorbing the projection changes nothing: for every shape, context, weights and weighing function. */
  lemma AbsorbedIsExpanded(shape: Shape, packed: seq<Vec>, h: nat, nope: Vec, rope: Vec, context: seq<Position>,
                           weigh: Vec -> Vec)
    requires Packed(shape, packed) && h < shape.heads && AllFit(shape, context) && KeepsLength(weigh)
    requires |nope| == shape.nope && |rope| == shape.rope
    ensures CompactAttention(shape, packed, h, nope, rope, context, weigh)
      == ExpandedAttention(shape, packed, h, nope, rope, context, weigh)
  {
    hide Mul, Dot, Combine, HeadRow, PackedRows;
    var query := Combine(nope, KeyUp(shape, packed, h), shape.rank);
    var compact :=
      seq(|context|, k requires 0 <= k < |context| => Dot(query, context[k].latent) + Dot(rope, context[k].rope));
    var expanded :=
      seq(|context|, k requires 0 <= k < |context| => Dot(nope + rope, ExpandedKey(shape, packed, h, context[k])));
    var values := seq(|context|, k requires 0 <= k < |context| => ExpandedValue(shape, packed, h, context[k]));
    forall k | 0 <= k < |context| ensures compact[k] == expanded[k] {
      CompactScore(shape, packed, h, nope, rope, context[k]);
    }
    assert compact == expanded;
    ApplyCombine(ValueUp(shape, packed, h), weigh(compact), Latents(context), shape.rank);
    forall k | 0 <= k < |context|
      ensures Expand(ValueUp(shape, packed, h), Latents(context), shape.rank)[k] == values[k] {
      HeadFits(shape, h);
    }
    assert Expand(ValueUp(shape, packed, h), Latents(context), shape.rank) == values;
  }

  // ---------------------------------------------------------------- the causal block mask

  datatype Score = NegInf | Fin(value: real)

  /** Row q of the tile: scores of future tile positions get -infinity; a tile of one has no mask. */
  function Masked(scores: seq<real>, past: nat, positions: nat, q: nat): (masked: seq<Score>)
    requires |scores| == past + positions && q < positions
    ensures |masked| == |scores|
  {
    seq(|scores|, k requires 0 <= k < |scores| =>
      if positions > 1 && k >= past && k - past > q then NegInf else Fin(scores[k]))
  }

  function Unmasked(scores: seq<real>): (all: seq<Score>)
    ensures |all| == |scores| && forall k :: 0 <= k < |scores| ==> all[k] == Fin(scores[k])
  {
    seq(|scores|, k requires 0 <= k < |scores| => Fin(scores[k]))
  }

  /** The largest finite score, which softmax subtracts. */
  function Largest(s: seq<Score>): real
    requires s != [] && s[0].Fin?
  {
    if |s| == 1 then s[0].value else
      var before := Largest(s[..|s| - 1]);
      match s[|s| - 1]
      case NegInf => before
      case Fin(x) => if x > before then x else before
  }

  /** The exponential of a shifted score; of -infinity it is zero. */
  function Exponential(exp: real -> real, s: Score, shift: real): real {
    match s
    case NegInf => 0.0
    case Fin(x) => exp(x - shift)
  }

  function Exponentials(exp: real -> real, s: seq<Score>, shift: real): (e: Vec)
    ensures |e| == |s| && forall k :: 0 <= k < |s| ==> e[k] == Exponential(exp, s[k], shift)
  {
    seq(|s|, k requires 0 <= k < |s| => Exponential(exp, s[k], shift))
  }

  function Total(e: Vec): real { if e == [] then 0.0 else Total(e[..|e| - 1]) + e[|e| - 1] }

  /** The softmax-weighted rows; `inverse` is the reciprocal the weights are scaled by. */
  function Attend(exp: real -> real, s: seq<Score>, rows: seq<Vec>, columns: nat, inverse: real -> real): (out: Vec)
    requires s != [] && s[0].Fin? && |rows| == |s| && Shaped(rows, columns)
  {
    var e := Exponentials(exp, s, Largest(s));
    Combine(Times(inverse(Total(e)), e), rows, columns)
  }

  /** A masked future position adds nothing. */
  lemma MaskedAddsNothing(exp: real -> real, s: seq<Score>, rows: seq<Vec>, columns: nat, inverse: real -> real)
    requires s != [] && s[0].Fin? && |rows| == |s| + 1 && Shaped(rows, columns)
    ensures Attend(exp, s + [NegInf], rows, columns, inverse) == Attend(exp, s, rows[..|s|], columns, inverse)
  {
    var e := Exponentials(exp, s, Largest(s));
    assert (s + [NegInf])[..|s|] == s;
    assert Exponentials(exp, s + [NegInf], Largest(s)) == e + [0.0];
    assert (e + [0.0])[..|e|] == e;
    var w := Times(inverse(Total(e)), e);
    assert Times(inverse(Total(e)), e + [0.0]) == w + [0.0];
    assert (w + [0.0])[..|w|] == w;
    assert Combine(w + [0.0], rows, columns) == Combine(w, rows[..|s|], columns);
  }

  lemma {:induction false} MaskedTail(exp: real -> real, s: seq<Score>, tail: seq<Score>, rows: seq<Vec>, columns: nat,
                                      inverse: real -> real)
    requires s != [] && s[0].Fin? && |rows| == |s| + |tail| && Shaped(rows, columns)
    requires forall k :: 0 <= k < |tail| ==> tail[k].NegInf?
    ensures Attend(exp, s + tail, rows, columns, inverse) == Attend(exp, s, rows[..|s|], columns, inverse)
  {
    if tail == [] {
      assert s + tail == s && rows[..|s|] == rows;
    } else {
      var n := |tail| - 1;
      assert s + tail == s + tail[..n] + [NegInf];
      MaskedAddsNothing(exp, s + tail[..n], rows, columns, inverse);
      MaskedTail(exp, s, tail[..n], rows[..|s| + n], columns, inverse);
      assert rows[..|s| + n][..|s|] == rows[..|s|];
    }
  }

  /** Row q of a masked tile attends to the keys 0 .. past + q, as the same position decoded alone does. */
  lemma TileRowSeesItsPrefix(exp: real -> real, scores: seq<real>, past: nat, positions: nat, q: nat, rows: seq<Vec>,
                             columns: nat, inverse: real -> real)
    requires |scores| == |rows| == past + positions && q < positions && Shaped(rows, columns)
    ensures Attend(exp, Masked(scores, past, positions, q), rows, columns, inverse)
      == Attend(exp, Unmasked(scores[..past + q + 1]), rows[..past + q + 1], columns, inverse)
  {
    var seen := Unmasked(scores[..past + q + 1]);
    var tail := seq(positions - q - 1, _ => NegInf);
    assert Masked(scores, past, positions, q) == seen + tail;
    MaskedTail(exp, seen, tail, rows, columns, inverse);
  }

  // ---------------------------------------------------------------- softmax is a weighted mean

  /** The reciprocal of everything that has one. */
  ghost predicate Reciprocal(inverse: real -> real) {
    forall t: real :: t != 0.0 ==> Mul(inverse(t), t) == 1.0
  }

  ghost predicate Positive(exp: real -> real) { forall x: real :: exp(x) > 0.0 }

  /** What an exponential is: positive, and sums become products. */
  ghost predicate ExponentialLaw(exp: real -> real) {
    Positive(exp) && forall x: real, y: real :: Mul(exp(x - y), exp(y)) == exp(x)
  }

  /** A sum, from the front. */
  function Sum(w: Vec): real { if w == [] then 0.0 else w[0] + Sum(w[1..]) }

  /** The sum of one column under weights, from the front. */
  function ColumnSum(w: Vec, rows: seq<Vec>, c: nat): real
    requires |w| == |rows| && forall k :: 0 <= k < |rows| ==> c < |rows[k]|
  {
    if w == [] then 0.0 else Mul(w[0], rows[0][c]) + ColumnSum(w[1..], rows[1..], c)
  }

  /** Weights of a mean of the keys that are not masked. */
  predicate MeanWeights(s: seq<Score>, w: Vec) {
    && |w| == |s| && Sum(w) == 1.0
    && forall k :: 0 <= k < |s| ==> if s[k].NegInf? then w[k] == 0.0 else w[k] > 0.0
  }

  /** They stand to each other as the exponentials of the scores. */
  predicate InRatio(exp: real -> real, s: seq<Score>, w: Vec)
    requires |w| == |s|
  {
    forall i, j :: 0 <= i < |s| && 0 <= j < |s| && s[i].Fin? && s[j].Fin? ==>
      Mul(w[i], exp(s[j].value)) == Mul(w[j], exp(s[i].value))
  }

  /** Every column of the result is the mean of the rows' column. */
  predicate Averages(w: Vec, rows: seq<Vec>, columns: nat, out: Vec)
    requires |w| == |rows| && Shaped(rows, columns)
  {
    |out| == columns && forall c :: 0 <= c < columns ==> out[c] == ColumnSum(w, rows, c)
  }

  lemma {:induction false} SumSnoc(w: Vec, x: real)
    ensures Sum(w + [x]) == Sum(w) + x
  {
    if w != [] {
      SumSnoc(w[1..], x);
      assert (w + [x])[1..] == w[1..] + [x];
    }
  }

  lemma {:induction false} TotalIsSum(e: Vec)
    ensures Total(e) == Sum(e)
  {
    if e != [] {
      var n := |e| - 1;
      TotalIsSum(e[..n]);
      SumSnoc(e[..n], e[n]);
      assert e[..n] + [e[n]] == e;
    }
  }

  lemma {:induction false} SumScaled(s: real, e: Vec)
    ensures Sum(Times(s, e)) == Mul(s, Sum(e))
  {
    if e != [] {
      SumScaled(s, e[1..]);
      assert Times(s, e)[1..] == Times(s, e[1..]);
      Spread(s, e[0], Sum(e[1..]));
    }
  }

  lemma Spread(s: real, a: real, b: real)
    ensures Mul(s, a + b) == Mul(s, a) + Mul(s, b)
  {
  }

  lemma {:induction false} SumPositive(e: Vec)
    requires e != [] && e[0] > 0.0 && forall k :: 0 <= k < |e| ==> e[k] >= 0.0
    ensures Sum(e) > 0.0
  {
    if |e| > 1 { SumNotNegative(e[1..]); }
  }

  lemma {:induction false} SumNotNegative(e: Vec)
    requires forall k :: 0 <= k < |e| ==> e[k] >= 0.0
    ensures Sum(e) >= 0.0
  {
    if e != [] { SumNotNegative(e[1..]); }
  }

  lemma {:induction false} ColumnSnoc(w: Vec, rows: seq<Vec>, x: real, row: Vec, c: nat)
    requires |w| == |rows| && (forall k :: 0 <= k < |rows| ==> c < |rows[k]|) && c < |row|
    ensures ColumnSum(w + [x], rows + [row], c) == ColumnSum(w, rows, c) + Mul(x, row[c])
  {
    if w != [] {
      ColumnSnoc(w[1..], rows[1..], x, row, c);
      assert (w + [x])[1..] == w[1..] + [x] && (rows + [row])[1..] == rows[1..] + [row];
    }
  }

  lemma {:induction false} CombineAverages(w: Vec, rows: seq<Vec>, columns: nat)
    requires |w| == |rows| && Shaped(rows, columns)
    ensures Averages(w, rows, columns, Combine(w, rows, columns))
  {
    if rows != [] {
      var n := |rows| - 1;
      CombineAverages(w[..n], rows[..n], columns);
      assert w[..n] + [w[n]] == w && rows[..n] + [rows[n]] == rows;
      forall c | 0 <= c < columns ensures Combine(w, rows, columns)[c] == ColumnSum(w, rows, c) {
        ColumnSnoc(w[..n], rows[..n], w[n], rows[n], c);
      }
    }
  }

  lemma SoftmaxWeights(exp: real -> real, s: seq<Score>, inverse: real -> real) returns (w: Vec)
    requires s != [] && s[0].Fin? && Positive(exp) && Reciprocal(inverse)
    ensures w == Times(inverse(Total(Exponentials(exp, s, Largest(s)))), Exponentials(exp, s, Largest(s)))
    ensures MeanWeights(s, w) && (ExponentialLaw(exp) ==> InRatio(exp, s, w))
  {
    hide Mul, Largest, ExponentialLaw, InRatio;
    var e := Exponentials(exp, s, Largest(s));
    TotalIsSum(e);
    SumPositive(e);
    var t := inverse(Sum(e));
    w := Times(t, e);
    SumScaled(t, e);
    SignOfReciprocal(t, Sum(e));
    forall k | 0 <= k < |s| ensures if s[k].NegInf? then w[k] == 0.0 else w[k] > 0.0 {
      SignOfProduct(t, e[k]);
    }
    if ExponentialLaw(exp) { ScaledInRatio(exp, s, Largest(s), t); }
  }

  lemma ScaledInRatio(exp: real -> real, s: seq<Score>, m: real, t: real)
    requires ExponentialLaw(exp)
    ensures InRatio(exp, s, Times(t, Exponentials(exp, s, m)))
  {
    hide Mul, ExponentialLaw;
    var e := Exponentials(exp, s, m);
    var w := Times(t, e);
    forall i, j | 0 <= i < |s| && 0 <= j < |s| && s[i].Fin? && s[j].Fin?
      ensures Mul(w[i], exp(s[j].value)) == Mul(w[j], exp(s[i].value)) {
      LawAt(exp, s[i].value, m);
      LawAt(exp, s[j].value, m);
      CrossProduct(t, e[i], e[j], exp(m));
    }
  }

  lemma LawAt(exp: real -> real, x: real, y: real)
    requires ExponentialLaw(exp)
    ensures Mul(exp(x - y), exp(y)) == exp(x)
  {
  }

  lemma PositiveAt(exp: real -> real, x: real)
    requires Positive(exp)
    ensures exp(x) > 0.0
  {
  }

  lemma SignOfReciprocal(t: real, sum: real)
    requires sum > 0.0 && Mul(t, sum) == 1.0
    ensures t > 0.0
  {
  }

  lemma SignOfProduct(t: real, e: real)
    requires t > 0.0 && e >= 0.0
    ensures Mul(t, e) >= 0.0 && (Mul(t, e) > 0.0 <==> e > 0.0)
  {
  }

  lemma CrossProduct(t: real, a: real, b: real, m: real)
    ensures Mul(Mul(t, a), Mul(b, m)) == Mul(Mul(t, b), Mul(a, m))
  {
  }

  /** Attention is the mean of the rows under weights that sum to one, none for masked keys, in the ratio of exp. */
  lemma AttendIsMean(exp: real -> real, s: seq<Score>, rows: seq<Vec>, columns: nat, inverse: real -> real)
    returns (w: Vec)
    requires s != [] && s[0].Fin? && |rows| == |s| && Shaped(rows, columns)
    requires Positive(exp) && Reciprocal(inverse)
    ensures MeanWeights(s, w) && (ExponentialLaw(exp) ==> InRatio(exp, s, w))
    ensures Averages(w, rows, columns, Attend(exp, s, rows, columns, inverse))
  {
    w := SoftmaxWeights(exp, s, inverse);
    CombineAverages(w, rows, columns);
  }

  lemma {:induction false} ColumnOfEqual(w: Vec, rows: seq<Vec>, v: Vec, c: nat)
    requires |w| == |rows| && c < |v| && forall k :: 0 <= k < |rows| ==> rows[k] == v
    ensures ColumnSum(w, rows, c) == Mul(v[c], Sum(w))
  {
    if w != [] {
      ColumnOfEqual(w[1..], rows[1..], v, c);
      Spread(v[c], w[0], Sum(w[1..]));
    }
  }

  /** Over rows that are all equal, attention returns that row: over one key, its own. */
  lemma EqualRowsAreReturned(exp: real -> real, s: seq<Score>, rows: seq<Vec>, v: Vec, inverse: real -> real)
    requires s != [] && s[0].Fin? && |rows| == |s| && forall k :: 0 <= k < |rows| ==> rows[k] == v
    requires Positive(exp) && Reciprocal(inverse)
    ensures Attend(exp, s, rows, |v|, inverse) == v
  {
    hide Attend, Positive, Reciprocal, Sum, ColumnSum;
    var w := AttendIsMean(exp, s, rows, |v|, inverse);
    forall c | 0 <= c < |v| ensures ColumnSum(w, rows, c) == v[c] {
      ColumnOfEqual(w, rows, v, c);
    }
  }

  /** Nothing else is in that ratio: the weights are determined by the scores. */
  lemma WeightsAreDetermined(exp: real -> real, s: seq<Score>, w: Vec, w': Vec)
    requires s != [] && s[0].Fin? && Positive(exp)
    requires MeanWeights(s, w) && InRatio(exp, s, w) && MeanWeights(s, w') && InRatio(exp, s, w')
    ensures w == w'
  {
    hide Mul, Sum, Positive;
    var base := exp(s[0].value);
    PositiveAt(exp, s[0].value);
    var e := seq(|s|, k requires 0 <= k < |s| => if s[k].Fin? then exp(s[k].value) else 0.0);
    ScaledByBase(exp, s, w, e, base);
    ScaledByBase(exp, s, w', e, base);
    SumInRatio(w, e, base);
    SumInRatio(w', e, base);
    SameScale(w[0], w'[0], Sum(e), base);
    forall k | 0 <= k < |s| ensures w[k] == w'[k] {
      SameQuotient(w[k], w'[k], base);
    }
  }

  lemma ScaledByBase(exp: real -> real, s: seq<Score>, w: Vec, e: Vec, base: real)
    requires s != [] && s[0].Fin? && |e| == |w| == |s| && MeanWeights(s, w) && InRatio(exp, s, w)
    requires base == exp(s[0].value)
    requires forall k :: 0 <= k < |s| ==> e[k] == if s[k].Fin? then exp(s[k].value) else 0.0
    ensures forall k :: 0 <= k < |s| ==> Mul(base, w[k]) == Mul(w[0], e[k])
  {
    forall k | 0 <= k < |s| ensures Mul(base, w[k]) == Mul(w[0], e[k]) {
      ScaledZero(base);
      ScaledZero(w[0]);
      Commutes(base, w[k]);
    }
  }

  lemma Commutes(a: real, b: real)
    ensures Mul(a, b) == Mul(b, a)
  {
  }

  lemma SumInRatio(w: Vec, e: Vec, base: real)
    requires w != [] && |w| == |e| && forall k :: 0 <= k < |w| ==> Mul(base, w[k]) == Mul(w[0], e[k])
    ensures Mul(base, Sum(w)) == Mul(w[0], Sum(e))
  {
    hide Mul, Sum;
    SumScaled(base, w);
    SumScaled(w[0], e);
    assert Times(base, w) == Times(w[0], e);
  }

  lemma SameScale(a: real, b: real, sum: real, base: real)
    requires base > 0.0 && Mul(base, 1.0) == Mul(a, sum) == Mul(b, sum)
    ensures a == b
  {
    assert (a - b) * sum == 0.0;
  }

  lemma SameQuotient(a: real, b: real, base: real)
    requires base > 0.0 && Mul(base, a) == Mul(base, b)
    ensures a == b
  {
    assert base * (a - b) == 0.0;
  }
}
