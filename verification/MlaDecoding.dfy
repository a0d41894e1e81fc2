/**
 * What a tile of positions computes in native/provider_gate/provider_mla.cpp: masked softmax attention
 * over every staged row, which is decoding the positions one at a time, each a mean of what it may see.
 * The projections that make rows, scores and outputs are uninterpreted functions of single positions.
 */
module MlaDecoding {
  import opened MlaAttention

  /**
   * The row-wise kernels: what a position caches, the scaled score a head gives to a cached position,
   * the row of `columns` numbers that head takes from it, the exponential and the reciprocal of softmax,
   * and how a position's output is made from the attention rows of its heads.
   */
  datatype Ops<!H, !K, !V, !O> = Ops(
    key: H -> K, value: H -> V, heads: nat, columns: nat,
    score: (H, nat, K, V) -> real, content: (nat, K, V, nat) -> real,
    exp: real -> real, inverse: real -> real, finish: (H, seq<Vec>) -> O)

  function MapKeys<H, K, V, O>(ops: Ops<H, K, V, O>, hidden: seq<H>): (rows: seq<K>)
    ensures |rows| == |hidden|
  {
    seq(|hidden|, i requires 0 <= i < |hidden| => ops.key(hidden[i]))
  }

  function MapValues<H, K, V, O>(ops: Ops<H, K, V, O>, hidden: seq<H>): (rows: seq<V>)
    ensures |rows| == |hidden|
  {
    seq(|hidden|, i requires 0 <= i < |hidden| => ops.value(hidden[i]))
  }

  function Scores<H, K, V, O>(ops: Ops<H, K, V, O>, h: H, head: nat, keys: seq<K>, values: seq<V>): (scores: seq<real>)
    requires |keys| == |values|
    ensures |scores| == |keys|
  {
    seq(|keys|, k requires 0 <= k < |keys| => ops.score(h, head, keys[k], values[k]))
  }

  function Contents<H, K, V, O>(ops: Ops<H, K, V, O>, head: nat, keys: seq<K>, values: seq<V>): (rows: seq<Vec>)
    requires |keys| == |values|
    ensures |rows| == |keys| && Shaped(rows, ops.columns)
  {
    seq(|keys|, k requires 0 <= k < |keys| =>
      seq(ops.columns, c requires 0 <= c => ops.content(head, keys[k], values[k], c)))
  }

  /** One head of position q of a tile: masked softmax over every staged row. */
  function Head<H, K, V, O>(ops: Ops<H, K, V, O>, h: H, head: nat, keys: seq<K>, values: seq<V>, past: nat,
                            positions: nat, q: nat)
    : (row: Vec)
    requires |keys| == |values| == past + positions && q < positions
  {
    Attend(ops.exp, Masked(Scores(ops, h, head, keys, values), past, positions, q), Contents(ops, head, keys, values),
           ops.columns, ops.inverse)
  }

  /** Position q of a tile, computed from all rows staged so far, later positions of the tile included. */
  function Tile<H, K, V, O>(ops: Ops<H, K, V, O>, h: H, keys: seq<K>, values: seq<V>, past: nat, positions: nat,
                            q: nat): O
    requires |keys| == |values| == past + positions && q < positions
  {
    ops.finish(h, seq(ops.heads, i requires 0 <= i => Head(ops, h, i, keys, values, past, positions, q)))
  }

  /** A position on its own: a tile of one behind everything else. */
  function Single<H, K, V, O>(ops: Ops<H, K, V, O>, h: H, keys: seq<K>, values: seq<V>): O
    requires |keys| == |values| > 0
  {
    Tile(ops, h, keys, values, |keys| - 1, 1, 0)
  }

  lemma HeadIsSingle<H, K, V, O>(ops: Ops<H, K, V, O>, h: H, head: nat, keys: seq<K>, values: seq<V>, past: nat,
                                 positions: nat, q: nat)
    requires |keys| == |values| == past + positions && q < positions
    ensures Head(ops, h, head, keys, values, past, positions, q) ==
      Head(ops, h, head, keys[..past + q + 1], values[..past + q + 1], past + q, 1, 0)
  {
    hide Attend;
    var n := past + q + 1;
    var scores, rows := Scores(ops, h, head, keys, values), Contents(ops, head, keys, values);
    TileRowSeesItsPrefix(ops.exp, scores, past, positions, q, rows, ops.columns, ops.inverse);
    assert Scores(ops, h, head, keys[..n], values[..n]) == scores[..n];
    assert Contents(ops, head, keys[..n], values[..n]) == rows[..n];
    assert Masked(scores[..n], past + q, 1, 0) == Unmasked(scores[..n]);
  }

  /** Under the mask a position of a tile is what it is on its own, behind the positions before it. */
  lemma TileIsSingle<H, K, V, O>(ops: Ops<H, K, V, O>, h: H, keys: seq<K>, values: seq<V>, past: nat, positions: nat,
                                 q: nat)
    requires |keys| == |values| == past + positions && q < positions
    ensures Tile(ops, h, keys, values, past, positions, q)
      == Single(ops, h, keys[..past + q + 1], values[..past + q + 1])
  {
    hide Head;
    var wide := seq(ops.heads, i requires 0 <= i => Head(ops, h, i, keys, values, past, positions, q));
    var single := seq(ops.heads, i requires 0 <= i =>
      Head(ops, h, i, keys[..past + q + 1], values[..past + q + 1], past + q, 1, 0));
    forall i | 0 <= i < ops.heads ensures wide[i] == single[i] {
      HeadIsSingle(ops, h, i, keys, values, past, positions, q);
    }
    assert wide == single;
  }

  /** The outputs of positions decoded one at a time: each sees what was cached before it, and itself. */
  function Outputs<H, K, V, O>(ops: Ops<H, K, V, O>, keys: seq<K>, values: seq<V>, hidden: seq<H>): (outputs: seq<O>)
    requires |keys| == |values|
    ensures |outputs| == |hidden|
  {
    if hidden == [] then [] else
      var n := |hidden| - 1;
      Outputs(ops, keys, values, hidden[..n]) +
      [Single(ops, hidden[n], keys + MapKeys(ops, hidden), values + MapValues(ops, hidden))]
  }

  /** Output q depends on the positions up to q alone. */
  lemma {:induction false} OutputAt<H, K, V, O>(ops: Ops<H, K, V, O>, keys: seq<K>, values: seq<V>, hidden: seq<H>,
                                                q: nat)
    requires |keys| == |values| && q < |hidden|
    ensures Outputs(ops, keys, values, hidden)[q] ==
      Single(ops, hidden[q], keys + MapKeys(ops, hidden)[..q + 1], values + MapValues(ops, hidden)[..q + 1])
  {
    hide Single;
    var n := |hidden| - 1;
    if q < n {
      OutputAt(ops, keys, values, hidden[..n], q);
      assert MapKeys(ops, hidden[..n])[..q + 1] == MapKeys(ops, hidden)[..q + 1];
      assert MapValues(ops, hidden[..n])[..q + 1] == MapValues(ops, hidden)[..q + 1];
    } else {
      assert MapKeys(ops, hidden)[..q + 1] == MapKeys(ops, hidden);
      assert MapValues(ops, hidden)[..q + 1] == MapValues(ops, hidden);
    }
  }

  /** Row q of the masked tile over all staged rows is the output of decoding one position at a time. */
  lemma TileIsOutput<H, K, V, O>(ops: Ops<H, K, V, O>, keys: seq<K>, values: seq<V>, hidden: seq<H>, q: nat)
    requires |keys| == |values| && q < |hidden|
    ensures Tile(ops, hidden[q], keys + MapKeys(ops, hidden), values + MapValues(ops, hidden), |keys|, |hidden|, q)
      == Outputs(ops, keys, values, hidden)[q]
  {
    hide Tile, Single, MapKeys, MapValues, Outputs;
    var allKeys, allValues := keys + MapKeys(ops, hidden), values + MapValues(ops, hidden);
    TileIsSingle(ops, hidden[q], allKeys, allValues, |keys|, |hidden|, q);
    OutputAt(ops, keys, values, hidden, q);
    assert allKeys[..|keys| + q + 1] == keys + MapKeys(ops, hidden)[..q + 1];
    assert allValues[..|keys| + q + 1] == values + MapValues(ops, hidden)[..q + 1];
  }

  /** Decoding two batches in turn is decoding their concatenation. */
  lemma {:induction false} OutputsConcat<H, K, V, O>(ops: Ops<H, K, V, O>, keys: seq<K>, values: seq<V>, first: seq<H>,
                                                     second: seq<H>)
    requires |keys| == |values|
    ensures MapKeys(ops, first + second) == MapKeys(ops, first) + MapKeys(ops, second)
    ensures MapValues(ops, first + second) == MapValues(ops, first) + MapValues(ops, second)
    ensures Outputs(ops, keys, values, first + second) ==
      Outputs(ops, keys, values, first)
        + Outputs(ops, keys + MapKeys(ops, first), values + MapValues(ops, first), second)
  {
    hide Single;
    if second == [] {
      assert first + second == first;
    } else {
      var n := |second| - 1;
      OutputsConcat(ops, keys, values, first, second[..n]);
      assert (first + second)[..|first| + n] == first + second[..n];
      assert keys + MapKeys(ops, first + second) == keys + MapKeys(ops, first) + MapKeys(ops, second);
      assert values + MapValues(ops, first + second) == values + MapValues(ops, first) + MapValues(ops, second);
    }
  }

  // ---------------------------------------------------------------- every output is a mean of what it sees

  /** The exponential and the reciprocal are such. */
  ghost predicate Lawful<H, K, V, O>(ops: Ops<H, K, V, O>) {
    ExponentialLaw(ops.exp) && Reciprocal(ops.inverse)
  }

  /** Key and value k of a sequence of cached rows followed by new positions. */
  function KeyAt<H, K, V, O>(ops: Ops<H, K, V, O>, keys: seq<K>, hidden: seq<H>, k: nat): K
    requires k < |keys| + |hidden|
  {
    if k < |keys| then keys[k] else ops.key(hidden[k - |keys|])
  }

  function ValueAt<H, K, V, O>(ops: Ops<H, K, V, O>, values: seq<V>, hidden: seq<H>, k: nat): V
    requires k < |values| + |hidden|
  {
    if k < |values| then values[k] else ops.value(hidden[k - |values|])
  }

  function ScoreAt<H, K, V, O>(ops: Ops<H, K, V, O>, keys: seq<K>, values: seq<V>, hidden: seq<H>, q: nat, head: nat,
                               k: nat): real
    requires |keys| == |values| && q < |hidden| && k < |keys| + |hidden|
  {
    ops.score(hidden[q], head, KeyAt(ops, keys, hidden, k), ValueAt(ops, values, hidden, k))
  }

  function ContentAt<H, K, V, O>(ops: Ops<H, K, V, O>, keys: seq<K>, values: seq<V>, hidden: seq<H>, head: nat, k: nat,
                                 c: nat): real
    requires |keys| == |values| && k < |keys| + |hidden|
  {
    ops.content(head, KeyAt(ops, keys, hidden, k), ValueAt(ops, values, hidden, k), c)
  }

  /** Column c of the cached rows from k on, under the weights. */
  function ContentSum<H, K, V, O>(ops: Ops<H, K, V, O>, keys: seq<K>, values: seq<V>, hidden: seq<H>, head: nat,
                                  w: Vec, c: nat, k: nat): real
    requires |keys| == |values| && k <= |w| <= |keys| + |hidden|
    decreases |w| - k
  {
    if k == |w| then 0.0 else
      Mul(w[k], ContentAt(ops, keys, values, hidden, head, k, c))
        + ContentSum(ops, keys, values, hidden, head, w, c, k + 1)
  }

  /**
   * A head's row for position q: weights that are positive, sum to one and are in the ratio of the
   * exponentials of the scores, one for each key up to the position's own, and the contents under them.
   */
  ghost predicate IsMean<H, K, V, O>(ops: Ops<H, K, V, O>, keys: seq<K>, values: seq<V>, hidden: seq<H>, q: nat,
                                     head: nat, w: Vec, row: Vec)
    requires |keys| == |values| && q < |hidden|
  {
    && |w| == |keys| + q + 1 && Sum(w) == 1.0 && (forall k :: 0 <= k < |w| ==> w[k] > 0.0)
    && (forall i, j :: 0 <= i < |w| && 0 <= j < |w| ==>
      Mul(w[i], ops.exp(ScoreAt(ops, keys, values, hidden, q, head, j)))
        == Mul(w[j], ops.exp(ScoreAt(ops, keys, values, hidden, q, head, i))))
    && |row| == ops.columns
    && forall c :: 0 <= c < ops.columns ==> row[c] == ContentSum(ops, keys, values, hidden, head, w, c, 0)
  }

  ghost predicate HeadIsMean<H, K, V, O>(ops: Ops<H, K, V, O>, keys: seq<K>, values: seq<V>, hidden: seq<H>, q: nat,
                                         head: nat, row: Vec)
    requires |keys| == |values| && q < |hidden|
  {
    exists w: Vec :: IsMean(ops, keys, values, hidden, q, head, w, row)
  }

  /** The output of position q is made from such rows, one for each head. */
  ghost predicate OutputIsMean<H, K, V, O>(ops: Ops<H, K, V, O>, keys: seq<K>, values: seq<V>, hidden: seq<H>, q: nat,
                                           output: O)
    requires |keys| == |values| && q < |hidden|
  {
    exists rows: seq<Vec> :: FinishedFrom(ops, keys, values, hidden, q, rows, output)
  }

  ghost predicate FinishedFrom<H, K, V, O>(ops: Ops<H, K, V, O>, keys: seq<K>, values: seq<V>, hidden: seq<H>, q: nat,
                                           rows: seq<Vec>, output: O)
    requires |keys| == |values| && q < |hidden|
  {
    && |rows| == ops.heads && output == ops.finish(hidden[q], rows)
    && forall i :: 0 <= i < |rows| ==> HeadIsMean(ops, keys, values, hidden, q, i, rows[i])
  }

  /** What a position gives that sees nothing but itself: its own contents. */
  function OwnOutput<H, K, V, O>(ops: Ops<H, K, V, O>, h: H): O {
    ops.finish(h, seq(ops.heads, i requires 0 <= i =>
      seq(ops.columns, c requires 0 <= c => ops.content(i, ops.key(h), ops.value(h), c))))
  }

  ghost predicate AttendsBySoftmax<H, K, V, O>(ops: Ops<H, K, V, O>, keys: seq<K>, values: seq<V>, hidden: seq<H>,
                                               outputs: seq<O>)
    requires |keys| == |values|
  {
    && |outputs| == |hidden|
    && (forall q :: 0 <= q < |hidden| ==> OutputIsMean(ops, keys, values, hidden, q, outputs[q]))
    && (keys == [] && hidden != [] ==> outputs[0] == OwnOutput(ops, hidden[0]))
  }

  lemma {:induction false} ContentIsColumn<H, K, V, O>(ops: Ops<H, K, V, O>, keys: seq<K>, values: seq<V>,
                                                       hidden: seq<H>, head: nat, w: Vec, rows: seq<Vec>, c: nat,
                                                       k: nat)
    requires |keys| == |values| && k <= |w| == |rows| <= |keys| + |hidden| && Shaped(rows, ops.columns)
    requires c < ops.columns
    requires forall j :: 0 <= j < |rows| ==> rows[j][c] == ContentAt(ops, keys, values, hidden, head, j, c)
    ensures ColumnSum(w[k..], rows[k..], c) == ContentSum(ops, keys, values, hidden, head, w, c, k)
    decreases |w| - k
  {
    if k < |w| {
      ContentIsColumn(ops, keys, values, hidden, head, w, rows, c, k + 1);
      assert w[k..][1..] == w[k + 1..] && rows[k..][1..] == rows[k + 1..];
    }
  }

  /** The keys and values that position q sees. */
  lemma SeenRows<H, K, V, O>(ops: Ops<H, K, V, O>, keys: seq<K>, values: seq<V>, hidden: seq<H>, q: nat)
    requires |keys| == |values| && q < |hidden|
    ensures forall k :: 0 <= k < |keys| + q + 1 ==>
      && (keys + MapKeys(ops, hidden)[..q + 1])[k] == KeyAt(ops, keys, hidden, k)
      && (values + MapValues(ops, hidden)[..q + 1])[k] == ValueAt(ops, values, hidden, k)
  {
  }

  lemma MeanOfHead<H, K, V, O>(ops: Ops<H, K, V, O>, keys: seq<K>, values: seq<V>, hidden: seq<H>, q: nat, head: nat)
    requires |keys| == |values| && q < |hidden| && Lawful(ops)
    ensures HeadIsMean(ops, keys, values, hidden, q, head,
                       Head(ops, hidden[q], head, keys + MapKeys(ops, hidden)[..q + 1],
                            values + MapValues(ops, hidden)[..q + 1], |keys| + q, 1, 0))
  {
    hide Attend, Mul, Sum, MapKeys, MapValues, ContentSum, ColumnSum, KeyAt, ValueAt;
    var ks, vs := keys + MapKeys(ops, hidden)[..q + 1], values + MapValues(ops, hidden)[..q + 1];
    var n := |keys| + q + 1;
    SeenRows(ops, keys, values, hidden, q);
    var scores, rows := Scores(ops, hidden[q], head, ks, vs), Contents(ops, head, ks, vs);
    var s := Masked(scores, |keys| + q, 1, 0);
    var w := AttendIsMean(ops.exp, s, rows, ops.columns, ops.inverse);
    var row := Head(ops, hidden[q], head, ks, vs, |keys| + q, 1, 0);
    forall k | 0 <= k < n ensures s[k] == Fin(ScoreAt(ops, keys, values, hidden, q, head, k)) {
    }
    forall c | 0 <= c < ops.columns ensures row[c] == ContentSum(ops, keys, values, hidden, head, w, c, 0) {
      ContentIsColumn(ops, keys, values, hidden, head, w, rows, c, 0);
      assert w[0..] == w && rows[0..] == rows;
    }
    assert IsMean(ops, keys, values, hidden, q, head, w, row);
  }

  lemma MeanOfOutput<H, K, V, O>(ops: Ops<H, K, V, O>, keys: seq<K>, values: seq<V>, hidden: seq<H>, q: nat)
    requires |keys| == |values| && q < |hidden| && Lawful(ops)
    ensures OutputIsMean(ops, keys, values, hidden, q, Outputs(ops, keys, values, hidden)[q])
  {
    hide Head, HeadIsMean, Outputs, MapKeys, MapValues, Lawful;
    OutputAt(ops, keys, values, hidden, q);
    var ks, vs := keys + MapKeys(ops, hidden)[..q + 1], values + MapValues(ops, hidden)[..q + 1];
    var rows := seq(ops.heads, i requires 0 <= i => Head(ops, hidden[q], i, ks, vs, |keys| + q, 1, 0));
    forall i | 0 <= i < |rows| ensures HeadIsMean(ops, keys, values, hidden, q, i, rows[i]) {
      MeanOfHead(ops, keys, values, hidden, q, i);
    }
    assert FinishedFrom(ops, keys, values, hidden, q, rows, Single(ops, hidden[q], ks, vs));
  }

  /** With nothing cached the first position's head returns its own contents. */
  lemma OwnHead<H, K, V, O>(ops: Ops<H, K, V, O>, h: H, head: nat, key: K, value: V)
    requires Lawful(ops)
    ensures Head(ops, h, head, [key], [value], 0, 1, 0)
      == seq(ops.columns, c requires 0 <= c => ops.content(head, key, value, c))
  {
    hide Attend;
    var rows := Contents(ops, head, [key], [value]);
    EqualRowsAreReturned(ops.exp, Masked(Scores(ops, h, head, [key], [value]), 0, 1, 0), rows, rows[0], ops.inverse);
  }

  lemma FirstIsOwn<H, K, V, O>(ops: Ops<H, K, V, O>, hidden: seq<H>)
    requires hidden != [] && Lawful(ops)
    ensures Outputs(ops, [], [], hidden)[0] == OwnOutput(ops, hidden[0])
  {
    hide Head, Outputs, Lawful;
    OutputAt(ops, [], [], hidden, 0);
    var key, value := ops.key(hidden[0]), ops.value(hidden[0]);
    assert [] + MapKeys(ops, hidden)[..1] == [key] && [] + MapValues(ops, hidden)[..1] == [value];
    var rows := seq(ops.heads, i requires 0 <= i => Head(ops, hidden[0], i, [key], [value], 0, 1, 0));
    var own := seq(ops.heads, i requires 0 <= i =>
      seq(ops.columns, c requires 0 <= c => ops.content(i, key, value, c)));
    forall i | 0 <= i < ops.heads ensures rows[i] == own[i] {
      OwnHead(ops, hidden[0], i, key, value);
    }
    assert rows == own;
  }

  /** Every output of a decoding run is finished from means of what its position sees. */
  lemma OutputsAreMeans<H, K, V, O>(ops: Ops<H, K, V, O>, keys: seq<K>, values: seq<V>, hidden: seq<H>)
    requires |keys| == |values| && Lawful(ops)
    ensures AttendsBySoftmax(ops, keys, values, hidden, Outputs(ops, keys, values, hidden))
  {
    hide OutputIsMean, Outputs, OwnOutput, Lawful;
    forall q | 0 <= q < |hidden|
      ensures OutputIsMean(ops, keys, values, hidden, q, Outputs(ops, keys, values, hidden)[q]) {
      MeanOfOutput(ops, keys, values, hidden, q);
    }
    if keys == [] && hidden != [] {
      assert values == [];
      FirstIsOwn(ops, hidden);
    }
  }
}
