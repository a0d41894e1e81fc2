/**
 * The dimensions, byte counts and admitted length of an MLA cache in
 * native/provider_gate/provider_mla.cpp.  Sizes are tested through divisions and differences, which
 * cannot overflow; the contracts state the tests over products and sums.
 */
module MlaGeometry {
  import opened Wrappers

  const U64_MAX: nat := 0xFFFF_FFFF_FFFF_FFFF
  const I64_MAX: nat := 0x7FFF_FFFF_FFFF_FFFF

  function Min(a: int, b: int): int { if a < b then a else b }

  const DEFAULT_EXPANDED_BUDGET: nat := 512 * 1024 * 1024

  datatype Representation = ExpandedExact | CompactLatentF32

  /** The dimensions of a layer. */
  datatype Geometry = Geometry(hidden: int, heads: int, queryRank: int, rank: int, nope: int, rope: int, valueDim: int,
                               maxContext: int, epsilon: real)

  /** Dimensions are positive, and widths fit 64-bit signed integers. */
  predicate Representable(g: Geometry) {
    && g.hidden > 0 && g.heads > 0 && g.queryRank > 0 && g.rank > 0 && g.nope > 0 && g.rope > 0 && g.valueDim > 0
    && g.maxContext > 0 && g.epsilon > 0.0
    && g.nope + g.rope <= I64_MAX && g.nope + g.valueDim <= I64_MAX && g.rank + g.rope <= I64_MAX
    && g.heads * (g.nope + g.rope) <= I64_MAX && g.heads * g.valueDim <= I64_MAX
      && g.heads * (g.nope + g.valueDim) <= I64_MAX
  }

  /** The numbers one position caches. */
  function Elements(g: Geometry, rep: Representation): int {
    match rep
    case ExpandedExact => g.heads * (g.nope + g.rope + g.valueDim)
    case CompactLatentF32 => g.rank + g.rope
  }

  function BytesPerPosition(g: Geometry, rep: Representation): int { 4 * Elements(g, rep) }

  /** The requested budget; zero asks for the representation's own: 512 MiB, or the longest context. */
  function Budget(g: Geometry, rep: Representation, requested: nat): int {
    if requested != 0 then requested
    else if rep.CompactLatentF32? then g.maxContext * BytesPerPosition(g, rep)
    else DEFAULT_EXPANDED_BUDGET
  }

  lemma Quotient(bound: int, right: int)
    requires bound >= 0 && right > 0
    ensures bound / right * right <= bound < (bound / right + 1) * right
  {
  }

  lemma Grows(a: int, b: int, factor: int)
    requires a <= b && factor >= 0
    ensures a * factor <= b * factor
  {
  }

  /** A product exceeds a bound exactly when dividing the bound by one factor shows it. */
  lemma ProductFits(left: int, right: int, bound: int)
    requires left >= 0 && right > 0 && bound >= 0
    ensures left > bound / right <==> left * right > bound
  {
    var q := bound / right;
    Quotient(bound, right);
    if left <= q {
      Grows(left, q, right);
    } else {
      Grows(q + 1, left, right);
    }
  }

  /** `MlaShape::validate`: products are compared through divisions, which cannot overflow. */
  method Validate(g: Geometry) returns (ok: bool)
    ensures ok <==> Representable(g)
  {
    if g.hidden <= 0 || g.heads <= 0 || g.queryRank <= 0 || g.rank <= 0 || g.nope <= 0 || g.rope <= 0 || g.valueDim <= 0
       || g.maxContext <= 0 || g.epsilon <= 0.0 {
      return false;
    }
    if g.nope > I64_MAX - g.rope { return false; }
    ProductFits(g.heads, g.nope + g.rope, I64_MAX);
    if g.heads > I64_MAX / (g.nope + g.rope) { return false; }
    ProductFits(g.heads, g.valueDim, I64_MAX);
    if g.heads > I64_MAX / g.valueDim { return false; }
    if g.nope > I64_MAX - g.valueDim { return false; }
    if g.rank > I64_MAX - g.rope { return false; }
    ProductFits(g.heads, g.nope + g.valueDim, I64_MAX);
    if g.heads > I64_MAX / (g.nope + g.valueDim) { return false; }
    return true;
  }

  /** The positions a storage budget admits: as many as fit, up to the longest context. */
  function AdmittedContext(maxContext: nat, bytesPerPosition: nat, budget: nat): nat
    requires bytesPerPosition > 0
  {
    Min(budget / bytesPerPosition, maxContext)
  }

  /** It is the largest context whose storage stays within the budget; so every admitted capacity does. */
  lemma AdmittedFitsBudget(maxContext: nat, bytesPerPosition: nat, budget: nat, capacity: nat)
    requires bytesPerPosition > 0
    ensures capacity <= AdmittedContext(maxContext, bytesPerPosition, budget)
       <==> capacity <= maxContext && capacity * bytesPerPosition <= budget
  {
    ProductFits(capacity, bytesPerPosition, budget);
  }

  /** A cache can be opened: bytes do not overflow, and the budget holds one position. */
  predicate Opens(g: Geometry, rep: Representation, growth: real, requested: nat) {
    && Representable(g) && growth >= 1.1
    && BytesPerPosition(g, rep) <= U64_MAX && g.maxContext * BytesPerPosition(g, rep) <= U64_MAX
    && BytesPerPosition(g, rep) <= Budget(g, rep, requested)
  }

  lemma Distributes(a: int, b: int, c: int)
    ensures a * (b + c) == a * b + a * c
  {
  }

  lemma Positive(a: int, b: int)
    requires a > 0 && b > 0
    ensures a * b > 0
  {
  }

  lemma SomeBytes(g: Geometry, rep: Representation)
    requires Representable(g)
    ensures Elements(g, rep) > 0 && BytesPerPosition(g, rep) > 0 && Budget(g, rep, 0) > 0
    ensures g.nope + g.rope <= U64_MAX - g.valueDim && g.heads * (g.nope + g.rope + g.valueDim) <= U64_MAX
  {
    Distributes(g.heads, g.nope + g.rope, g.valueDim);
    Positive(g.heads, g.nope + g.rope + g.valueDim);
    Positive(g.maxContext, BytesPerPosition(g, rep));
  }

  /** The bytes of one position; the tests for overflow of the element count never fire. */
  method CheckedBytes(g: Geometry, rep: Representation) returns (bytes: Option<nat>)
    requires Representable(g)
    ensures bytes == if BytesPerPosition(g, rep) <= U64_MAX then Some(BytesPerPosition(g, rep)) else None
  {
    SomeBytes(g, rep);
    var elements;
    match rep {
      case ExpandedExact =>
        var key := g.nope + g.rope;
        ProductFits(g.heads, key + g.valueDim, U64_MAX);
        if key > U64_MAX - g.valueDim || g.heads > U64_MAX / (key + g.valueDim) { return None; }
        elements := g.heads * (key + g.valueDim);
      case CompactLatentF32 =>
        if g.rank > U64_MAX - g.rope { return None; }
        elements := g.rank + g.rope;
    }
    if elements > U64_MAX / 4 { return None; }
    return Some(elements * 4);
  }
}
