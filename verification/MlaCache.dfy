/**
 * The MLA key/value cache of native/provider_gate/provider_mla.cpp: two-phase appends under nonce and
 * version tickets, rows staged in place beyond the committed prefix, and geometric growth within an
 * admitted bound.  A tile of T positions runs masked softmax attention over all staged rows.  The
 * projections that make rows, scores and outputs are uninterpreted functions of single positions.
 */
module MlaCache {
  import opened MlaAttention
  import opened MlaDecoding
  import opened MlaGeometry
  import opened Wrappers

  datatype Result<T> = Ok(value: T) | InvalidArgument | RuntimeError | Overflow

  // ---------------------------------------------------------------- growth

  function Max(a: int, b: int): int { if a < b then b else a }
  function Ceil(x: real): int { -((-x).Floor) }

  function GrownCapacity(capacity: nat, growth: real, admitted: nat, needed: nat): Result<nat> {
    if needed == 0 || needed > admitted then InvalidArgument
    else if capacity == 0 then Ok(Min(admitted, Max(16, Max(needed, Ceil(needed as real * 1.25)))))
    else if Ceil(capacity as real * growth) > I64_MAX then Overflow
    else Ok(Min(admitted, Max(needed, Ceil(capacity as real * growth))))
  }

  /** A capacity that serves a request: all that is admitted, or the request with its reserve. */
  ghost predicate Serves(capacity: nat, growth: real, admitted: nat, needed: nat, n: nat) {
    n >= admitted
    || (n >= needed && if capacity == 0 then n >= 16 && 4 * n >= 5 * needed else n as real >= capacity as real * growth)
  }

  /** Growth takes the least capacity that serves: a quarter on top at first, then the growth factor. */
  lemma GrowthIsLeast(capacity: nat, growth: real, admitted: nat, needed: nat)
    requires needed <= admitted && GrownCapacity(capacity, growth, admitted, needed).Ok?
    ensures var next := GrownCapacity(capacity, growth, admitted, needed).value;
      && next <= admitted && Serves(capacity, growth, admitted, needed, next)
      && forall n: nat :: n < next ==> !Serves(capacity, growth, admitted, needed, n)
  {
    CeilIsLeast(needed as real * 1.25);
    CeilIsLeast(capacity as real * growth);
  }

  /** A request for nothing or past the bound is refused, and so is a growth past 64 bits, and nothing else. */
  lemma GrowthRefusals(capacity: nat, growth: real, admitted: nat, needed: nat)
    ensures var next := GrownCapacity(capacity, growth, admitted, needed);
      && !next.RuntimeError? && (next.InvalidArgument? <==> needed == 0 || needed > admitted)
      && (next.Overflow? <==>
            0 < needed <= admitted && capacity > 0 && capacity as real * growth > 9_223_372_036_854_775_807.0)
  {
    CeilIsLeast(capacity as real * growth);
  }

  lemma CeilIsLeast(x: real)
    ensures (Ceil(x) - 1) as real < x <= Ceil(x) as real
  {
  }

  /** Growth holds the request, stays admitted, and short of the bound is geometric. */
  lemma GrowthIsGeometric(capacity: nat, growth: real, admitted: nat, needed: nat)
    requires capacity < needed <= admitted && GrownCapacity(capacity, growth, admitted, needed).Ok?
    ensures needed <= GrownCapacity(capacity, growth, admitted, needed).value <= admitted
    ensures var next := GrownCapacity(capacity, growth, admitted, needed).value;
      next < admitted && capacity > 0 ==> next as real >= capacity as real * growth
  {
  }

  /** Regrowth has copied at most growth / (growth - 1) rows for every row of the cache. */
  ghost predicate AmortizedCopies(growth: real, copied: nat, length: nat) {
    copied as real * (growth - 1.0) <= length as real * growth
  }

  /** The invariant behind that bound: short of the admitted size, the capacity pays for the copies. */
  ghost predicate Paid(growth: real, copied: nat, length: nat, capacity: nat, admitted: nat) {
    && AmortizedCopies(growth, copied, length)
    && (capacity < admitted ==> copied as real * (growth - 1.0) <= capacity as real)
  }

  lemma CopyPays(growth: real, copied: real, length: real, total: real, capacity: real, needed: real, next: real,
                 room: bool)
    requires growth >= 1.1 && length <= capacity <= needed && copied * (growth - 1.0) <= capacity
    requires total == copied + length
    requires room ==> capacity * growth <= next
    ensures total * (growth - 1.0) <= needed * growth
    ensures room ==> total * (growth - 1.0) <= next
  {
    calc {
      total * (growth - 1.0);
      == copied * (growth - 1.0) + length * (growth - 1.0);
      <= capacity + capacity * (growth - 1.0);
      == capacity * growth;
    }
    assert capacity * growth <= needed * growth;
  }

  /** One growth step copies the committed rows and stays paid for, once its request is committed. */
  lemma GrowthPays(growth: real, copied: nat, length: nat, capacity: nat, admitted: nat, needed: nat)
    requires growth >= 1.1 && length <= capacity < needed <= admitted
    requires Paid(growth, copied, length, capacity, admitted) && GrownCapacity(capacity, growth, admitted, needed).Ok?
    ensures Paid(growth, copied + length, needed, GrownCapacity(capacity, growth, admitted, needed).value, admitted)
  {
    var next := GrownCapacity(capacity, growth, admitted, needed).value;
    GrowthIsGeometric(capacity, growth, admitted, needed);
    assert next < admitted && capacity == 0 ==> capacity as real * growth <= next as real;
    hide GrownCapacity;
    CopyPays(growth, copied as real, length as real, (copied + length) as real, capacity as real, needed as real,
             next as real, next < admitted);
  }

  /** So a committed batch, grown or not, keeps the copies paid for. */
  lemma StaysPaid(growth: real, admitted: nat, copied: nat, length: nat, capacity: nat, copied': nat, length': nat,
                  capacity': nat)
    requires growth >= 1.1 && Paid(growth, copied, length, capacity, admitted)
    requires length <= capacity && length <= length' <= admitted
    requires length' <= capacity ==> copied' == copied && capacity' == capacity
    requires length' > capacity ==>
      copied' == copied + length && GrownCapacity(capacity, growth, admitted, length') == Ok(capacity')
    ensures Paid(growth, copied', length', capacity', admitted)
  {
    hide Paid, GrownCapacity;
    if length' > capacity {
      GrowthPays(growth, copied, length, capacity, admitted, length');
    } else {
      LengthPays(growth, copied, length, capacity, admitted, length');
    }
  }

  lemma NothingOwed(growth: real, capacity: nat, admitted: nat)
    requires growth >= 1.1
    ensures Paid(growth, 0, 0, capacity, admitted)
  {
  }

  lemma LengthPays(growth: real, copied: nat, length: nat, capacity: nat, admitted: nat, longer: nat)
    requires growth >= 1.1 && Paid(growth, copied, length, capacity, admitted) && length <= longer
    ensures Paid(growth, copied, longer, capacity, admitted)
  {
    assert length as real * growth <= longer as real * growth;
  }

  // ---------------------------------------------------------------- counters

  /** What decides whether an append is refused. */
  datatype Counters = Counters(length: nat, capacity: nat, nextNonce: nat)

  predicate Admits(c: Counters, admitted: nat, count: nat) {
    0 < count && c.length <= admitted && count <= admitted - c.length
  }

  predicate Overflows(c: Counters, growth: real, admitted: nat, count: nat) {
    c.capacity < c.length + count && GrownCapacity(c.capacity, growth, admitted, c.length + count).Overflow?
  }

  /** No positions, no room for them, no nonce left, or a capacity that overflows. */
  predicate Refused(c: Counters, growth: real, admitted: nat, count: nat) {
    !Admits(c, admitted, count) || c.nextNonce == U64_MAX || Overflows(c, growth, admitted, count)
  }

  /** The counters once a ticket was asked for: a growth that overflows spends a nonce too. */
  function Ticketed(c: Counters, admitted: nat, count: nat): Counters {
    if Admits(c, admitted, count) && c.nextNonce != U64_MAX then c.(nextNonce := c.nextNonce + 1) else c
  }

  /** The counters after one append of `count` positions. */
  function Appended(c: Counters, growth: real, admitted: nat, count: nat): Counters {
    if Refused(c, growth, admitted, count) then Ticketed(c, admitted, count) else
      Counters(c.length + count, Enlarged(c, growth, admitted, count), c.nextNonce + 1)
  }

  function Enlarged(c: Counters, growth: real, admitted: nat, count: nat): nat
    requires Admits(c, admitted, count) && !Overflows(c, growth, admitted, count)
  {
    if c.length + count <= c.capacity then c.capacity
    else GrownCapacity(c.capacity, growth, admitted, c.length + count).value
  }

  // ---------------------------------------------------------------- tickets and the cache

  /** Storage with these rows written behind its first `at`. */
  function Overwrite<T>(slab: seq<T>, at: nat, rows: seq<T>): (written: seq<T>)
    requires at + |rows| <= |slab|
    ensures |written| == |slab|
  {
    slab[..at] + rows + slab[at + |rows|..]
  }

  /** Copy rows into a slab behind its first `at` rows. */
  method WriteRows<T>(slab: array<T>, at: nat, rows: seq<T>)
    requires at + |rows| <= slab.Length
    modifies slab
    ensures slab[..] == Overwrite(old(slab[..]), at, rows)
    ensures slab[..at] == old(slab[..at]) && slab[..at + |rows|] == old(slab[..at]) + rows
  {
    forall i | 0 <= i < |rows| { slab[at + i] := rows[i]; }
    assert slab[..] == Overwrite(old(slab[..]), at, rows);
    assert slab[..at + |rows|] == old(slab[..at]) + rows;
  }

  /** A prepared append: the ticket that must be committed or cancelled. */
  class Prepared<H, K(0), V(0), O> {
    const nonce: nat
    const expectedVersion: nat
    const expectedLength: nat
    const nextLength: nat
    const nextCapacity: nat
    const usesGrown: bool
    /** The storage staged into: the cache's own, or the grown one. */
    const keys: array<K>
    const values: array<V>
    var count: nat
    var output: Option<seq<O>>
    var owner: Cache?<H, K, V, O>
    var finalized: bool

    constructor (cache: Cache<H, K, V, O>, nonce: nat, count: nat, keys: array<K>, values: array<V>, nextCapacity: nat,
                 usesGrown: bool)
      ensures this.nonce == nonce && this.count == count && this.keys == keys && this.values == values
      ensures this.nextCapacity == nextCapacity && this.usesGrown == usesGrown
      ensures expectedVersion == cache.version && expectedLength == cache.length && nextLength == cache.length + count
      ensures output.None? && owner == cache && !finalized
    {
      this.nonce, this.count, this.keys, this.values := nonce, count, keys, values;
      this.nextCapacity, this.usesGrown := nextCapacity, usesGrown;
      expectedVersion, expectedLength, nextLength := cache.version, cache.length, cache.length + count;
      output, owner, finalized := None, cache, false;
    }
  }

  class Cache<H, K(0), V(0), O> {
    const ops: Ops<H, K, V, O>
    const growth: real
    const admitted: nat
    var keys: array<K>
    var values: array<V>
    var length: nat
    var capacity: nat
    var version: nat
    var nextNonce: nat
    var pendingNonce: nat
    /** Every ticket of this cache, the one that is pending, and the rows regrowth has copied. */
    ghost var issued: set<Prepared<H, K, V, O>>
    ghost var pending: Prepared?<H, K, V, O>
    ghost var copied: nat

    /** The cache without its tickets. */
    ghost predicate Shaped()
      reads this
    {
      && growth >= 1.1 && admitted <= I64_MAX
      && version == length <= capacity <= admitted
      && keys.Length == values.Length == capacity
      && (keys as object) != (values as object)
    }

    /** A ticket that is still open stages onto the committed prefix as it is now. */
    ghost predicate Live(p: Prepared<H, K, V, O>)
      requires Shaped()
      reads this, keys, values, p, p.keys, p.values
    {
      && p.owner == this && !p.finalized && p.nonce == pendingNonce
      && p.expectedVersion == version && p.expectedLength == length
      && p.count > 0 && p.nextLength == length + p.count <= p.nextCapacity <= admitted
      && p.keys.Length == p.values.Length == p.nextCapacity && (p.keys as object) != (p.values as object)
      && p.keys[..length] == keys[..length] && p.values[..length] == values[..length]
      && (!p.usesGrown ==> p.keys == keys && p.values == values)
    }

    ghost function Repr(): set<object>
      reads this
    {
      {this as object, keys, values} + issued + if pending == null then {}
        else {pending as object, pending.keys, pending.values}
    }

    ghost predicate Valid()
      reads this, Repr()
    {
      && Shaped() && pendingNonce < nextNonce <= U64_MAX
      && (forall p :: p in issued ==> p.nonce < nextNonce && p.nonce != 0)
      && (forall p, q :: p in issued && q in issued && p.nonce == q.nonce ==> p == q)
      && (pendingNonce == 0 <==> pending == null)
      && (pending != null ==> pending in issued && Live(pending))
    }

    ghost function Keys(): seq<K>
      requires Shaped()
      reads this, keys
    {
      keys[..length]
    }

    ghost function Values(): seq<V>
      requires Shaped()
      reads this, values
    {
      values[..length]
    }

    constructor (ops: Ops<H, K, V, O>, growth: real, admitted: nat)
      requires growth >= 1.1 && admitted <= I64_MAX
      ensures Valid() && length == 0 && pending == null && copied == 0 && issued == {} && nextNonce == 1
      ensures this.ops == ops && this.growth == growth && this.admitted == admitted && fresh(keys) && fresh(values)
    {
      this.ops, this.growth, this.admitted := ops, growth, admitted;
      keys, values := new K[0], new V[0];
      length, capacity, version, nextNonce, pendingNonce := 0, 0, 0, 1, 0;
      issued, pending, copied := {}, null, 0;
    }

    function Counts(): Counters
      reads this
    {
      Counters(length, capacity, nextNonce)
    }

    predicate CanAppend(positions: nat)
      reads this
    {
      length <= admitted && positions <= admitted - length
    }

    /** Storage of the given capacity that begins with the committed rows. */
    method Grow(next: nat) returns (grownKeys: array<K>, grownValues: array<V>)
      requires Shaped() && length <= next
      modifies this`copied
      ensures fresh(grownKeys) && fresh(grownValues) && (grownKeys as object) != (grownValues as object)
      ensures grownKeys.Length == grownValues.Length == next
      ensures grownKeys[..length] == keys[..length] && grownValues[..length] == values[..length]
      ensures copied == old(copied) + length
    {
      grownKeys := new K[next];
      grownValues := new V[next];
      forall i | 0 <= i < length { grownKeys[i] := keys[i]; }
      forall i | 0 <= i < length { grownValues[i] := values[i]; }
      copied := copied + length;
    }

    /** The storage to stage `count` more rows into and its capacity; None when growth overflows. */
    method Room(count: nat) returns (next: Option<nat>, stageKeys: array<K>, stageValues: array<V>)
      requires Shaped() && Admits(Counts(), admitted, count)
      modifies this`copied
      ensures next.None? <==> Overflows(Counts(), growth, admitted, count)
      ensures next.None? ==> copied == old(copied)
      ensures next.Some? ==> next.value == Enlarged(Counts(), growth, admitted, count)
      ensures next.Some? ==>
        length + count <= next.value <= admitted && stageKeys.Length == stageValues.Length == next.value
      ensures next.Some? ==> (stageKeys as object) != (stageValues as object)
      ensures next.Some? ==> stageKeys[..length] == keys[..length] && stageValues[..length] == values[..length]
      ensures next.Some? && length + count <= capacity ==>
        next.value == capacity && stageKeys == keys && stageValues == values
      ensures next.Some? && capacity < length + count ==> fresh(stageKeys) && fresh(stageValues)
      ensures next.Some? ==> copied == old(copied) + if capacity < length + count then length else 0
    {
      var needed := length + count;
      stageKeys, stageValues := keys, values;
      if needed <= capacity { return Some(capacity), keys, values; }
      var grown := GrownCapacity(capacity, growth, admitted, needed);
      if !grown.Ok? { return None, keys, values; }
      GrowthIsGeometric(capacity, growth, admitted, needed);
      stageKeys, stageValues := Grow(grown.value);
      next := Some(grown.value);
    }

    /**
     * Open a ticket for `count` positions, growing the storage when they do not fit.  Nothing is
     * committed and no row is staged; this alone is the decode shell of one position.
     */
    method Reserve(count: nat) returns (r: Result<Prepared<H, K, V, O>>)
      requires Valid()
      modifies this`nextNonce, this`pendingNonce, this`issued, this`pending, this`copied
      ensures Valid()
      ensures r.InvalidArgument? <==> !Admits(old(Counts()), admitted, count)
      ensures r.RuntimeError? <==>
        Admits(old(Counts()), admitted, count) && (old(pendingNonce) != 0 || old(nextNonce) == U64_MAX)
      ensures r.InvalidArgument? || r.RuntimeError? ==> unchanged(this)
      ensures r.Ok? <==> old(pending) == null && !Refused(old(Counts()), growth, admitted, count)
      ensures old(pending) == null ==> Counts() == Ticketed(old(Counts()), admitted, count)
      ensures r.Overflow? ==> pending == null && copied == old(copied) && issued == old(issued)
      ensures r.Ok? ==> pending == r.value && fresh(r.value) && r.value.count == count && r.value.output.None?
      ensures r.Ok? ==> issued == old(issued) + {r.value}
      ensures r.Ok? ==> r.value.usesGrown == (capacity < length + count)
      ensures r.Ok? ==> r.value.nextCapacity == Enlarged(old(Counts()), growth, admitted, count)
      ensures r.Ok? && r.value.usesGrown ==>
        fresh(r.value.keys) && fresh(r.value.values) && copied == old(copied) + length
      ensures r.Ok? && !r.value.usesGrown ==> copied == old(copied)
    {
      hide GrownCapacity;
      if count == 0 || !CanAppend(count) { return InvalidArgument; }
      if pendingNonce != 0 { return RuntimeError; }
      if nextNonce == 0 || nextNonce == U64_MAX { return RuntimeError; }
      var nonce := nextNonce;
      nextNonce := nextNonce + 1;
      pendingNonce := nonce;
      var next, stageKeys, stageValues := Room(count);
      if next.None? {
        pendingNonce := 0;    // the catch block
        return Overflow;
      }
      var p := new Prepared(this, nonce, count, stageKeys, stageValues, next.value, capacity < length + count);
      issued := issued + {p};
      pending := p;
      return Ok(p);
    }

    /** Write the new rows behind the committed ones and compute every position's output from all of them. */
    method Stage(p: Prepared<H, K, V, O>, hidden: seq<H>)
      requires Shaped() && Live(p) && |hidden| == p.count
      modifies p`output, p.keys, p.values
      ensures p.keys[..] == Overwrite(old(p.keys[..]), length, MapKeys(ops, hidden))
      ensures p.values[..] == Overwrite(old(p.values[..]), length, MapValues(ops, hidden))
      ensures p.keys[..length] == old(p.keys[..length]) && p.values[..length] == old(p.values[..length])
      ensures p.keys[..p.nextLength] == old(Keys()) + MapKeys(ops, hidden)
      ensures p.values[..p.nextLength] == old(Values()) + MapValues(ops, hidden)
      ensures p.output == Some(Outputs(ops, old(Keys()), old(Values()), hidden))
      ensures Lawful(ops) ==> AttendsBySoftmax(ops, old(Keys()), old(Values()), hidden, p.output.value)
    {
      hide AttendsBySoftmax, Lawful, MapKeys, MapValues, Outputs, Tile, Overwrite;
      ghost var k, v := Keys(), Values();
      WriteRows(p.keys, length, MapKeys(ops, hidden));
      WriteRows(p.values, length, MapValues(ops, hidden));
      var allKeys, allValues := p.keys[..p.nextLength], p.values[..p.nextLength];
      var outputs := [];
      for q := 0 to |hidden|
        invariant |outputs| == q
        invariant forall j :: 0 <= j < q ==> outputs[j] == Outputs(ops, k, v, hidden)[j]
        modifies {}
      {
        TileIsOutput(ops, k, v, hidden, q);
        outputs := outputs + [Tile(ops, hidden[q], allKeys, allValues, length, |hidden|, q)];
      }
      assert outputs == Outputs(ops, k, v, hidden);
      if Lawful(ops) { OutputsAreMeans(ops, k, v, hidden); }
      p.output := Some(outputs);
    }

    /** The prepare step: a ticket whose rows and outputs are staged; nothing committed changes. */
    method Prepare(hidden: seq<H>) returns (r: Result<Prepared<H, K, V, O>>)
      requires Valid()
      modifies this`nextNonce, this`pendingNonce, this`issued, this`pending, this`copied, keys, values
      ensures Valid() && Keys() == old(Keys()) && Values() == old(Values())
      ensures r.InvalidArgument? <==> !Admits(old(Counts()), admitted, |hidden|)
      ensures r.RuntimeError? <==>
        Admits(old(Counts()), admitted, |hidden|) && (old(pendingNonce) != 0 || old(nextNonce) == U64_MAX)
      ensures r.InvalidArgument? || r.RuntimeError? ==> unchanged(this)
      ensures r.Ok? <==> old(pending) == null && !Refused(old(Counts()), growth, admitted, |hidden|)
      ensures old(pending) == null ==> Counts() == Ticketed(old(Counts()), admitted, |hidden|)
      ensures r.Overflow? ==> pending == null && copied == old(copied) && issued == old(issued)
      ensures r.Ok? ==> pending == r.value && fresh(r.value) && issued == old(issued) + {r.value}
      ensures r.Ok? ==> r.value.count == |hidden| && r.value.output == Some(Outputs(ops, Keys(), Values(), hidden))
      ensures r.Ok? ==> r.value.keys[..r.value.nextLength] == Keys() + MapKeys(ops, hidden)
      ensures r.Ok? ==> r.value.values[..r.value.nextLength] == Values() + MapValues(ops, hidden)
      ensures r.Ok? ==> r.value.usesGrown == (capacity < length + |hidden|)
      ensures r.Ok? ==> r.value.nextCapacity == Enlarged(old(Counts()), growth, admitted, |hidden|)
      ensures r.Ok? && r.value.usesGrown ==>
        fresh(r.value.keys) && fresh(r.value.values) && copied == old(copied) + length
      ensures r.Ok? && !r.value.usesGrown ==> copied == old(copied)
      ensures keys[..] == if r.Ok? && !r.value.usesGrown then Overwrite(old(keys[..]), length, MapKeys(ops, hidden))
        else old(keys[..])
      ensures values[..] == if r.Ok? && !r.value.usesGrown
        then Overwrite(old(values[..]), length, MapValues(ops, hidden)) else old(values[..])
    {
      hide GrownCapacity, Outputs, MapKeys, MapValues, Overwrite;
      r := Reserve(|hidden|);
      if r.Ok? { Stage(r.value, hidden); }
    }

    /** Of the tickets of this cache only the pending one carries the pending nonce. */
    lemma NonceIsTicket(p: Prepared<H, K, V, O>)
      requires Valid() && p in issued && p.nonce == pendingNonce
      ensures p == pending
    {
    }

    /**
     * Commit a ticket.  Exactly the live ticket of this cache with an output for each of its positions
     * is accepted, and its staged rows become the committed ones.
     */
    method Commit(p: Prepared<H, K, V, O>) returns (r: Result<()>)
      requires Valid() && (p in issued || p.owner != this)
      modifies this`keys, this`values, this`capacity, this`length, this`version, this`pendingNonce, this`pending,
        p`finalized, p`owner
      ensures Valid()
      ensures r.Ok? <==> p == old(pending) && p.output.Some? && |p.output.value| == p.count
      ensures r.Ok? ==> length == p.nextLength && keys == p.keys && values == p.values && capacity == p.nextCapacity
      ensures r.Ok? ==> pending == null && p.finalized && p.owner == null
      ensures !r.Ok? ==> unchanged(this) && unchanged(p)
    {
      if p.owner != this || p.finalized || p.nonce == 0 { return InvalidArgument; }
      if pendingNonce != p.nonce || version != p.expectedVersion || length != p.expectedLength {
        return InvalidArgument;
      }
      NonceIsTicket(p);
      if p.count == 0 || p.output.None? || |p.output.value| != p.count
         || p.nextLength != length + p.count || p.nextCapacity < p.nextLength || p.nextCapacity > admitted {
        return InvalidArgument;
      }
      if p.count > U64_MAX - version { return RuntimeError; }
      if p.usesGrown {
        if p.keys.Length != p.nextCapacity || p.values.Length != p.nextCapacity { return InvalidArgument; }
        keys, values, capacity := p.keys, p.values, p.nextCapacity;
      } else if p.nextCapacity != capacity {
        return InvalidArgument;
      }
      length := p.nextLength;
      version := version + p.count;
      pendingNonce, pending := 0, null;
      p.finalized, p.owner := true, null;
      return Ok(());
    }

    /** Give a ticket up: exactly the live one is accepted, and the committed rows stay. */
    method Cancel(p: Prepared<H, K, V, O>) returns (r: Result<()>)
      requires Valid() && (p in issued || p.owner != this)
      modifies this`pendingNonce, this`pending, p`finalized, p`owner, p`output, p`count
      ensures Valid() && (r.Ok? <==> p == old(pending))
      ensures r.Ok? ==> pending == null && p.finalized && p.owner == null && p.output.None?
      ensures !r.Ok? ==> unchanged(this) && unchanged(p)
    {
      if p.owner != this || p.finalized || p.nonce == 0 { return InvalidArgument; }
      if pendingNonce != p.nonce || version != p.expectedVersion || length != p.expectedLength {
        return InvalidArgument;
      }
      NonceIsTicket(p);
      pendingNonce, pending := 0, null;
      p.output, p.count := None, 0;
      p.finalized, p.owner := true, null;
      return Ok(());
    }
  }

  // ---------------------------------------------------------------- opening a cache and running batches

  /** The public constructor. */
  method Open<H, K(0), V(0), O>(ops: Ops<H, K, V, O>, g: Geometry, rep: Representation, growth: real, requested: nat)
    returns (cache: Option<Cache<H, K, V, O>>)
    requires requested <= U64_MAX && g.maxContext <= I64_MAX
    ensures cache.Some? <==> Opens(g, rep, growth, requested)
    ensures cache.Some? ==>
      fresh(cache.value) && cache.value.Valid() && cache.value.length == 0 && cache.value.pending == null
    ensures cache.Some? ==>
      cache.value.copied == 0 && cache.value.nextNonce == 1 && cache.value.ops == ops && cache.value.growth == growth
    ensures cache.Some? ==> forall capacity: nat :: capacity <= cache.value.admitted <==>
      capacity <= g.maxContext && capacity * BytesPerPosition(g, rep) <= Budget(g, rep, requested)
    ensures cache.Some? ==> 0 < cache.value.admitted
    ensures cache.Some? && rep.CompactLatentF32? && requested == 0 ==> cache.value.admitted == g.maxContext
    ensures cache.Some? && rep.ExpandedExact? && requested == 0 ==>
      var bytes := 4 * (g.heads * (g.nope + g.rope + g.valueDim));
      && cache.value.admitted <= g.maxContext && cache.value.admitted * bytes <= 536_870_912
      && (cache.value.admitted == g.maxContext || (cache.value.admitted + 1) * bytes > 536_870_912)
  {
    var ok := Validate(g);
    if !ok || growth < 1.1 { return None; }
    SomeBytes(g, rep);
    var bytes := CheckedBytes(g, rep);
    if bytes.None? { return None; }
    ProductFits(g.maxContext, bytes.value, U64_MAX);
    if g.maxContext > U64_MAX / bytes.value { return None; }
    var budget: nat := Budget(g, rep, requested);
    if budget < bytes.value { return None; }
    hide Representable, Elements, BytesPerPosition, Budget, AdmittedContext;
    forall capacity: nat {
      AdmittedFitsBudget(g.maxContext, bytes.value, budget, capacity);
    }
    AdmittedFitsBudget(g.maxContext, bytes.value, budget, 1);
    AdmittedFitsBudget(g.maxContext, bytes.value, budget, g.maxContext);
    var created := new Cache(ops, growth, AdmittedContext(g.maxContext, bytes.value, budget));
    return Some(created);
  }

  /** All positions of a list of batches, in order. */
  function Flatten<H>(batches: seq<seq<H>>): seq<H> {
    if batches == [] then [] else Flatten(batches[..|batches| - 1]) + batches[|batches| - 1]
  }

  /**
   * One committed batch.  It is refused exactly when it is empty, is not admitted, finds no nonce left or
   * overflows the capacity; in place it writes behind the committed rows and nowhere else, and a batch
   * that does not fit moves to storage of its own.
   */
  method Append<H, K(0), V(0), O>(cache: Cache<H, K, V, O>, hidden: seq<H>) returns (outputs: Option<seq<O>>)
    requires cache.Valid() && cache.pending == null
    modifies cache, cache.keys, cache.values
    ensures cache.Valid() && cache.Shaped() && cache.pending == null && fresh(cache.Repr() - old(cache.Repr()))
    ensures outputs.None? <==> Refused(old(cache.Counts()), cache.growth, cache.admitted, |hidden|)
    ensures cache.Counts() == Appended(old(cache.Counts()), cache.growth, cache.admitted, |hidden|)
    ensures outputs.None? ==> cache.Keys() == old(cache.Keys()) && cache.Values() == old(cache.Values())
    ensures outputs.Some? ==> outputs.value == Outputs(cache.ops, old(cache.Keys()), old(cache.Values()), hidden)
    ensures outputs.Some? ==> cache.Keys() == old(cache.Keys()) + MapKeys(cache.ops, hidden)
    ensures outputs.Some? ==> cache.Values() == old(cache.Values()) + MapValues(cache.ops, hidden)
    ensures InPlace(old(cache.Counts()), |hidden|, outputs.None?) ==>
      cache.keys == old(cache.keys) && cache.values == old(cache.values)
    ensures InPlace(old(cache.Counts()), |hidden|, outputs.None?) ==> cache.copied == old(cache.copied)
    ensures !InPlace(old(cache.Counts()), |hidden|, outputs.None?) ==>
      fresh(cache.keys) && fresh(cache.values) && cache.copied == old(cache.copied) + old(cache.length)
    ensures old(cache.keys)[..] == if outputs.Some? && InPlace(old(cache.Counts()), |hidden|, false)
      then Overwrite(old(cache.keys[..]), old(cache.length), MapKeys(cache.ops, hidden)) else old(cache.keys[..])
    ensures old(cache.values)[..] == if outputs.Some? && InPlace(old(cache.Counts()), |hidden|, false)
      then Overwrite(old(cache.values[..]), old(cache.length), MapValues(cache.ops, hidden)) else old(cache.values[..])
  {
    hide GrownCapacity, Outputs, MapKeys, MapValues, Overwrite;
    var ticket := cache.Prepare(hidden);
    if !ticket.Ok? { return None; }
    outputs := ticket.value.output;
    var committed := cache.Commit(ticket.value);
  }

  /** The cache stays on its storage: the batch fits, or is refused. */
  predicate InPlace(c: Counters, count: nat, refused: bool) {
    refused || c.length + count <= c.capacity
  }

  /** The counters after batches that were all appended. */
  function AfterBatches<H>(c: Counters, growth: real, admitted: nat, batches: seq<seq<H>>): Counters {
    if batches == [] then c else
      var n := |batches| - 1;
      Appended(AfterBatches(c, growth, admitted, batches[..n]), growth, admitted, |batches[n]|)
  }

  /** Batch n is refused, all before it having been appended. */
  predicate RefusedAt<H>(c: Counters, growth: real, admitted: nat, batches: seq<seq<H>>, n: nat)
    requires n < |batches|
  {
    Refused(AfterBatches(c, growth, admitted, batches[..n]), growth, admitted, |batches[n]|)
  }

  /** The cache holds exactly the rows of these positions, and its copies are paid for. */
  ghost predicate Holding<H, K(0), V(0), O>(cache: Cache<H, K, V, O>, hidden: seq<H>)
    reads cache, cache.Repr()
  {
    && cache.Valid() && cache.pending == null
      && |hidden| == cache.length == cache.version <= cache.capacity <= cache.admitted
    && cache.Keys() == MapKeys(cache.ops, hidden) && cache.Values() == MapValues(cache.ops, hidden)
    && Paid(cache.growth, cache.copied, cache.length, cache.capacity, cache.admitted)
  }

  /** One more batch of a run. */
  method AppendNext<H, K(0), V(0), O>(cache: Cache<H, K, V, O>, ghost before: seq<H>, hidden: seq<H>)
    returns (more: Option<seq<O>>)
    requires Holding(cache, before)
    modifies cache, cache.keys, cache.values
    ensures Holding(cache, if more.Some? then before + hidden else before)
    ensures (cache.keys == old(cache.keys) && cache.values == old(cache.values))
      || (fresh(cache.keys) && fresh(cache.values))
    ensures more.None? <==> Refused(old(cache.Counts()), cache.growth, cache.admitted, |hidden|)
    ensures cache.Counts() == Appended(old(cache.Counts()), cache.growth, cache.admitted, |hidden|)
    ensures more.Some? ==>
      more.value == Outputs(cache.ops, MapKeys(cache.ops, before), MapValues(cache.ops, before), hidden)
  {
    hide GrownCapacity, Outputs, MapKeys, MapValues, Overwrite, Paid, Cache.Live, Enlarged;
    ghost var counts, copied := cache.Counts(), cache.copied;
    more := Append(cache, hidden);
    if more.Some? {
      OutputsConcat(cache.ops, [], [], before, hidden);
      AppendPays(counts, cache.growth, cache.admitted, |hidden|, copied, cache.copied);
    }
  }

  /**
   * Any run of batches, up to the first that is refused: rows, outputs, length and version are those of
   * decoding the same positions one at a time, however they were batched, and all regrowth together has
   * copied at most growth / (growth - 1) rows for every row committed.
   */
  method AppendAll<H, K(0), V(0), O>(cache: Cache<H, K, V, O>, batches: seq<seq<H>>)
    returns (done: nat, outputs: seq<O>)
    requires cache.Valid() && cache.length == 0 && cache.pending == null && cache.copied == 0
    modifies cache, cache.keys, cache.values
    ensures done <= |batches| && Holding(cache, Flatten(batches[..done]))
    ensures forall n :: 0 <= n < done ==> !RefusedAt(old(cache.Counts()), cache.growth, cache.admitted, batches, n)
    ensures done < |batches| ==> RefusedAt(old(cache.Counts()), cache.growth, cache.admitted, batches, done)
    ensures outputs == Outputs(cache.ops, [], [], Flatten(batches[..done]))
    ensures Lawful(cache.ops) ==> AttendsBySoftmax(cache.ops, [], [], Flatten(batches[..done]), outputs)
  {
    hide AttendsBySoftmax, Lawful, Holding, Flatten, Outputs, MapKeys, MapValues, GrownCapacity, Cache.Live,
         Cache.Valid, Overwrite, Refused, Appended, AfterBatches, Paid;
    RunStart(cache, batches);
    ghost var counts := cache.Counts();
    done, outputs := 0, [];
    for n := 0 to |batches|
      invariant done == n
      invariant Holding(cache, Flatten(batches[..n]))
      invariant (cache.keys == old(cache.keys) && cache.values == old(cache.values))
        || (fresh(cache.keys) && fresh(cache.values))
      invariant cache.Counts() == AfterBatches(counts, cache.growth, cache.admitted, batches[..n])
      invariant forall k :: 0 <= k < n ==> !RefusedAt(counts, cache.growth, cache.admitted, batches, k)
      invariant outputs == Outputs(cache.ops, [], [], Flatten(batches[..n]))
    {
      RunStep(cache.ops, batches, n);
      CountStep(counts, cache.growth, cache.admitted, batches, n);
      var more := AppendNext(cache, Flatten(batches[..n]), batches[n]);
      if more.None? { done := n; break; }
      outputs := outputs + more.value;
      done := n + 1;
    }
    if Lawful(cache.ops) { OutputsAreMeans(cache.ops, [], [], Flatten(batches[..done])); }
  }

  lemma CountStep<H>(c: Counters, growth: real, admitted: nat, batches: seq<seq<H>>, n: nat)
    requires n < |batches|
    ensures AfterBatches(c, growth, admitted, batches[..n + 1])
      == Appended(AfterBatches(c, growth, admitted, batches[..n]), growth, admitted, |batches[n]|)
  {
    hide Appended;
    assert batches[..n + 1][..n] == batches[..n];
  }

  /** An append keeps the copies paid for. */
  lemma AppendPays(c: Counters, growth: real, admitted: nat, count: nat, copied: nat, copied': nat)
    requires growth >= 1.1 && c.length <= c.capacity && Paid(growth, copied, c.length, c.capacity, admitted)
    requires !Refused(c, growth, admitted, count)
    requires copied' == if InPlace(c, count, false) then copied else copied + c.length
    ensures var after := Appended(c, growth, admitted, count);
      Paid(growth, copied', after.length, after.capacity, admitted)
  {
    hide Paid;
    var after := Appended(c, growth, admitted, count);
    StaysPaid(growth, admitted, copied, c.length, c.capacity, copied', after.length, after.capacity);
  }

  lemma RunStart<H, K(0), V(0), O>(cache: Cache<H, K, V, O>, batches: seq<seq<H>>)
    requires cache.Valid() && cache.length == 0 && cache.pending == null && cache.copied == 0
    ensures Holding(cache, Flatten(batches[..0])) && Outputs(cache.ops, [], [], Flatten(batches[..0])) == []
    ensures AfterBatches(cache.Counts(), cache.growth, cache.admitted, batches[..0]) == cache.Counts()
  {
    assert batches[..0] == [];
    NothingOwed(cache.growth, cache.capacity, cache.admitted);
  }

  lemma RunStep<H, K, V, O>(ops: Ops<H, K, V, O>, batches: seq<seq<H>>, n: nat)
    requires n < |batches|
    ensures var before := Flatten(batches[..n]);
      && Flatten(batches[..n + 1]) == before + batches[n]
      && Outputs(ops, [], [], before + batches[n]) ==
         Outputs(ops, [], [], before) + Outputs(ops, MapKeys(ops, before), MapValues(ops, before), batches[n])
  {
    hide Single;
    var before := Flatten(batches[..n]);
    assert batches[..n + 1][..n] == batches[..n];
    OutputsConcat(ops, [], [], before, batches[n]);
    assert [] + MapKeys(ops, before) == MapKeys(ops, before);
    assert [] + MapValues(ops, before) == MapValues(ops, before);
  }
}
