/**
 * What the rows of tools/fused_gemv.c are over the reals: the dot product of the activation with the
 * elements that the packed bytes stand for (OCP Microscaling Formats v1.0, sections 5.3.3 and 5.4.1).
 * Element k of a row is a nibble of its group, the even ones low, times the power of two of its scale.
 */
module Mxfp4DotProduct {
  import opened Mxfp4Kernels
  import opened Mxfp4Lanes
  import opened Mxfp4Weights

  /** The sixteen E2M1 numbers. */
  const E2M1: seq<real> := [
    0.0, 0.5, 1.0, 1.5, 2.0, 3.0, 4.0, 6.0, 0.0, -0.5, -1.0, -1.5, -2.0, -3.0, -4.0, -6.0]

  /** The number a pattern stands for; patterns that stand for none count as zero. */
  function Number(w: nat): real {
    if w >= 0x1_0000_0000 then 0.0 else
      match Decode(w)
      case Finite(negative, magnitude) => if negative then -magnitude else magnitude
      case _ => 0.0
  }

  /** Arithmetic that does not round. */
  const EXACT: Ops<real> := Ops(
    (a: real, w: nat, x: real) => a + Times(Number(w), x), (a: real, b: real) => a + b,
    (a: real, b: real, c: real, d: real) => a + b + c + d, 0.0)

  /** Element k of the row that begins at group `base`. */
  function Element(p: seq<Lanes16>, s: seq<Byte>, base: nat, k: nat): real
    requires Matching(p, s) && base + k / 32 < |p|
  {
    var byte, scale: int := p[base + k / 32][k % 32 / 2], s[base + k / 32];
    Times(E2M1[if k % 2 == 0 then byte % 16 else byte / 16], Pow2(scale - 127))
  }

  /** The dot product of the first n elements of a row with the activation. */
  function DotProduct(p: seq<Lanes16>, s: seq<Byte>, x: seq<real>, base: nat, n: nat): real
    requires Matching(p, s) && base + (n + 31) / 32 <= |p| && n <= |x|
  {
    if n == 0 then 0.0
    else DotProduct(p, s, x, base, n - 1) + Times(Element(p, s, base, n - 1), x[n - 1])
  }

  predicate ScalesInRange(s: seq<Byte>, from: nat, to: nat) {
    to <= |s| && forall k :: from <= k < to ==> 2 <= s[k] <= 252
  }

  lemma CodeNumber(c: Code)
    ensures CodeValue(c) == Finite(c >= 8, MAGNITUDE[c % 8]) && MAGNITUDE[c % 8] >= 0.0
    ensures E2M1[c] == if c >= 8 then -MAGNITUDE[c % 8] else MAGNITUDE[c % 8]
  {
  }

  lemma Negated(m: real, a: real)
    ensures Times(-m, a) == -Times(m, a)
  {
  }

  /** In range a weight pattern stands for the code times the scale. */
  lemma WeightNumber(scale: Byte, c: Code)
    requires 2 <= scale <= 252
    ensures Number(Weight(scale, c)) == Times(E2M1[c], Pow2(scale - 127))
  {
    hide Weight, Decode, Pow2, Times, Number;
    WeightValue(scale, c);
    CodeNumber(c);
    Negated(MAGNITUDE[c % 8], Pow2(scale - 127));
    NumberOfFinite(Weight(scale, c), c >= 8, Times(MAGNITUDE[c % 8], Pow2(scale - 127)));
  }

  lemma NumberOfFinite(w: Word, negative: bool, magnitude: real)
    requires Decode(w) == Finite(negative, magnitude)
    ensures Number(w) == if negative then -magnitude else magnitude
  {
    hide Decode;
  }

  lemma WeightValue(scale: Byte, c: Code)
    requires 2 <= scale <= 252
    ensures Decode(Weight(scale, c)) == Finite(c >= 8, Times(MAGNITUDE[c % 8], Pow2(scale - 127)))
  {
    hide *;
    TableInRange(scale, c);
    MultipliedIsProduct(scale, c);
    ScaleValue(scale);
    SmallMagnitude(scale, c);
    CodeNumber(c);
    SmallProduct(scale, c);
  }

  lemma SmallProduct(scale: Byte, c: Code)
    requires Decode(ScalePattern(scale)) == Finite(false, Pow2(scale - 127))
    requires CodeValue(c) == Finite(c >= 8, MAGNITUDE[c % 8])
    requires Times(MAGNITUDE[c % 8], Pow2(scale - 127)) < Pow2(128)
    ensures ScaledValue(scale, c) == Finite(c >= 8, Times(MAGNITUDE[c % 8], Pow2(scale - 127)))
  {
    hide Decode, ScalePattern, CodeValue, Pow2, Times;
  }

  lemma SmallMagnitude(scale: Byte, c: Code)
    requires 2 <= scale <= 252
    ensures Times(MAGNITUDE[c % 8], Pow2(scale - 127)) < Pow2(128)
  {
    Pow2Positive(scale - 127);
    Pow2Grows(scale - 127, 125);
    Pow2Doubles(125);
    Pow2Doubles(126);
    Pow2Doubles(127);
    hide Pow2;
    assert 0.0 <= MAGNITUDE[c % 8] <= 6.0;
    Bounded(MAGNITUDE[c % 8], Pow2(scale - 127), Pow2(125));
  }

  lemma Bounded(m: real, a: real, b: real)
    requires 0.0 <= m <= 6.0 && 0.0 < a <= b
    ensures Times(m, a) < 8.0 * b
  {
  }

  /** The sum of the first n of several numbers. */
  function SumOf(v: seq<real>, n: nat): real
    requires n <= |v|
  {
    if n == 0 then 0.0 else SumOf(v, n - 1) + v[n - 1]
  }

  lemma {:induction false} SumAdds(a: seq<real>, t: seq<real>, b: seq<real>, n: nat)
    requires n <= |a| == |t| == |b| && forall j :: 0 <= j < |a| ==> b[j] == a[j] + t[j]
    ensures SumOf(b, n) == SumOf(a, n) + SumOf(t, n)
  {
    if n > 0 { SumAdds(a, t, b, n - 1); }
  }

  lemma FourMore(v: seq<real>, n: nat)
    requires n + 4 <= |v|
    ensures SumOf(v, n + 4) == SumOf(v, n) + v[n] + v[n + 1] + v[n + 2] + v[n + 3]
  {
    assert SumOf(v, n + 1) == SumOf(v, n) + v[n];
    assert SumOf(v, n + 2) == SumOf(v, n + 1) + v[n + 1];
    assert SumOf(v, n + 3) == SumOf(v, n + 2) + v[n + 2];
  }

  /** Without rounding the balanced trees add up all lanes. */
  lemma TreesAddUp(lanes: seq<real>)
    requires |lanes| == 32
    ensures Tree(EXACT, lanes, 0) + Tree(EXACT, lanes, 1) + Tree(EXACT, lanes, 2) + Tree(EXACT, lanes, 3)
      == SumOf(lanes, 32)
  {
    FourMore(lanes, 0); FourMore(lanes, 4); FourMore(lanes, 8); FourMore(lanes, 12);
    FourMore(lanes, 16); FourMore(lanes, 20); FourMore(lanes, 24); FourMore(lanes, 28);
  }

  function TermAt(p: seq<Lanes16>, s: seq<Byte>, x: seq<real>, base: nat, k: nat): real
    requires Matching(p, s) && base + k / 32 < |p| && k < |x|
  {
    Times(Element(p, s, base, k), x[k])
  }

  /** What group g adds to the lanes. */
  function GroupTerms(p: seq<Lanes16>, s: seq<Byte>, x: seq<real>, base: nat, g: nat): (t: seq<real>)
    requires Matching(p, s) && base + g < |p| && 32 * g + 32 <= |x|
    ensures |t| == 32 && forall j :: 0 <= j < 32 ==> t[j] == TermAt(p, s, x, base, 32 * g + j)
  {
    seq(32, j requires 0 <= j < 32 => TermAt(p, s, x, base, 32 * g + j))
  }

  lemma ElementOfGroup(p: seq<Lanes16>, s: seq<Byte>, base: nat, g: nat, j: nat)
    requires Matching(p, s) && base + g < |p| && j < 32
    ensures (32 * g + j) / 32 == g && (32 * g + j) % 32 == j && (32 * g + j) % 2 == j % 2
    ensures Element(p, s, base, 32 * g + j)
      == Times(E2M1[Nibble(p[base + g], j)], Pow2(s[base + g] as int - 127))
  {
    hide Pow2, Times;
  }

  lemma NibbleOfElement(p: seq<Lanes16>, s: seq<Byte>, base: nat, g: nat, j: nat)
    requires Matching(p, s) && base + g < |p| && j < 32 && 2 <= s[base + g] <= 252
    ensures (32 * g + j) / 32 == g
    ensures Number(WeightOf(false, s[base + g], p[base + g], j)) == Element(p, s, base, 32 * g + j)
  {
    hide Weight, Number, Pow2, Times, Element, Nibble, AreBytes;
    WeightNumber(s[base + g], Nibble(p[base + g], j));
    ElementOfGroup(p, s, base, g, j);
  }

  lemma LaneAdds(p: seq<Lanes16>, s: seq<Byte>, x: seq<real>, base: nat, g: nat, j: nat)
    requires Matching(p, s) && base + g < |p| && 32 * g + 32 <= |x| && j < 32 && 2 <= s[base + g] <= 252
    ensures Lane(EXACT, false, p, s, x, base, j, g + 1)
      == Lane(EXACT, false, p, s, x, base, j, g) + TermAt(p, s, x, base, 32 * g + j)
  {
    NibbleOfElement(p, s, base, g, j);
    hide Number, WeightOf, Element, Times;
  }

  lemma {:induction false} DotAdds(p: seq<Lanes16>, s: seq<Byte>, x: seq<real>, base: nat, g: nat, n: nat)
    requires Matching(p, s) && base + g < |p| && 32 * g + 32 <= |x| && n <= 32
    ensures DotProduct(p, s, x, base, 32 * g + n)
      == DotProduct(p, s, x, base, 32 * g) + SumOf(GroupTerms(p, s, x, base, g), n)
  {
    hide Element, Times;
    if n > 0 { DotAdds(p, s, x, base, g, n - 1); }
  }

  lemma {:induction false} LanesAddUp(p: seq<Lanes16>, s: seq<Byte>, x: seq<real>, base: nat, g: nat)
    requires Matching(p, s) && base + g <= |p| && 32 * g <= |x| && ScalesInRange(s, base, base + g)
    ensures SumOf(Lanes(EXACT, false, p, s, x, base, g), 32) == DotProduct(p, s, x, base, 32 * g)
  {
    hide Element, Times, Number, AreBytes, Lane, TermAt, Tree;
    if g == 0 {
      NothingAdded(p, s, x, base);
      AllZero(Lanes(EXACT, false, p, s, x, base, 0), 32);
    } else {
      LanesAddUp(p, s, x, base, g - 1);
      var before, t, after := Lanes(EXACT, false, p, s, x, base, g - 1), GroupTerms(p, s, x, base, g - 1),
        Lanes(EXACT, false, p, s, x, base, g);
      forall j | 0 <= j < 32 ensures after[j] == before[j] + t[j] {
        LaneAdds(p, s, x, base, g - 1, j);
      }
      SumAdds(before, t, after, 32);
      DotAdds(p, s, x, base, g - 1, 32);
    }
  }

  lemma NothingAdded(p: seq<Lanes16>, s: seq<Byte>, x: seq<real>, base: nat)
    requires Matching(p, s) && base <= |p|
    ensures forall j :: 0 <= j < 32 ==> Lane(EXACT, false, p, s, x, base, j, 0) == 0.0
  {
  }

  lemma {:induction false} AllZero(v: seq<real>, n: nat)
    requires n <= |v| && forall j :: 0 <= j < |v| ==> v[j] == 0.0
    ensures SumOf(v, n) == 0.0
  {
    if n > 0 { AllZero(v, n - 1); }
  }

  /** With scale bytes in 2 .. 252 a row's term is, without rounding, the dot product of its elements. */
  lemma RowIsDotProduct(p: seq<Lanes16>, s: seq<Byte>, x: seq<real>, base: nat, groups: nat)
    requires Matching(p, s) && base + groups <= |p| && 32 * groups <= |x| && ScalesInRange(s, base, base + groups)
    ensures RowValue(EXACT, false, p, s, x, base, groups) == DotProduct(p, s, x, base, 32 * groups)
  {
    hide Tree, Lane, Element, Times, DotProduct;
    LanesAddUp(p, s, x, base, groups);
    TreesAddUp(Lanes(EXACT, false, p, s, x, base, groups));
  }

  predicate ProductAt(p: seq<Lanes16>, s: seq<Byte>, x: seq<real>, groups: nat, r: nat, v: real)
    requires Matching(p, s)
  {
    r * groups + groups <= |p| && 32 * groups <= |x| && v == DotProduct(p, s, x, r * groups, 32 * groups)
  }

  /** So the rows that a kernel wrote are the matrix applied to the activation. */
  lemma RowsAreDotProducts(p: seq<Lanes16>, s: seq<Byte>, x: seq<real>, groups: nat, rows: nat, at: nat, lo: nat,
                           hi: nat, before: seq<real>, after: seq<real>)
    requires Matching(p, s) && Base(rows, groups) <= |p| && 32 * groups <= |x| && hi <= rows
    requires ScalesInRange(s, 0, |s|) && at + hi <= |after|
    requires RowsWritten(EXACT, false, p, s, x, groups, rows, at, lo, hi, before, after)
    ensures forall i :: at + lo <= i < at + hi ==> ProductAt(p, s, x, groups, i - at, after[i])
  {
    hide DotProduct, AreBytes, Base, RowIs, ProductAt, ScalesInRange, Matching;
    forall i | at + lo <= i < at + hi ensures ProductAt(p, s, x, groups, i - at, after[i]) {
      assert RowIs(EXACT, false, p, s, x, groups, rows, i - at, after[i]);
      RowIsProductAt(p, s, x, groups, rows, i - at, after[i]);
    }
  }

  lemma RowIsProductAt(p: seq<Lanes16>, s: seq<Byte>, x: seq<real>, groups: nat, rows: nat, r: nat, v: real)
    requires Matching(p, s) && Base(rows, groups) <= |p| && 32 * groups <= |x| && r < rows
    requires ScalesInRange(s, 0, |s|) && RowIs(EXACT, false, p, s, x, groups, rows, r, v)
    ensures ProductAt(p, s, x, groups, r, v)
  {
    hide DotProduct, AreBytes, RowValue;
    BaseFits(r, rows, groups);
    RowIsDotProduct(p, s, x, Base(r, groups), groups);
  }
}
