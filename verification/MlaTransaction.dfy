/**
 * Forks and branches of the MLA cache in native/provider_gate/provider_mla.cpp.  Either works on a copy
 * of the cache object that shares the base's storage and writes in place behind its committed rows;
 * publishing moves a prefix of a branch into the base.  While it is the only live user of the base, the
 * base keeps its rows, length and version.  With two branches that is exactly a matter of growth.
 */
module MlaTransaction {
  import opened MlaCache
  import opened MlaDecoding
  import opened MlaGeometry
  import opened Wrappers

  /** A cache over the storage of another, with its counters. */
  method Share<H, K(0), V(0), O>(base: Cache<H, K, V, O>) returns (child: Cache<H, K, V, O>)
    requires base.Valid() && base.pending == null
    ensures fresh(child) && child.Counts() == base.Counts() && Beside(base, child)
    ensures child.keys == base.keys && child.values == base.values
  {
    child := new Cache(base.ops, base.growth, base.admitted);
    child.keys, child.values := base.keys, base.values;
    child.length, child.capacity, child.version := base.length, base.capacity, base.version;
    child.nextNonce := base.nextNonce;
  }

  /** The child begins with the base's rows, on the base's own storage or on storage of its own. */
  ghost predicate Beside<H, K(0), V(0), O>(base: Cache<H, K, V, O>, child: Cache<H, K, V, O>)
    reads base, base.Repr(), child, child.Repr()
  {
    && base != child && base.Valid() && base.pending == null && child.Valid() && child.pending == null
    && child.ops == base.ops && child.growth == base.growth && child.admitted == base.admitted
    && base.length <= child.length && base.nextNonce <= child.nextNonce
    && (if child.keys == base.keys then child.values == base.values
        else {child.keys as object, child.values} !! {base.keys as object, base.values})
    && child.keys[..base.length] == base.Keys() && child.values[..base.length] == base.Values()
  }

  /** `fork_committed`: refused while an append is pending. */
  method ForkCommitted<H, K(0), V(0), O>(base: Cache<H, K, V, O>) returns (child: Option<Cache<H, K, V, O>>)
    requires base.Valid()
    ensures child.None? <==> base.pending != null
    ensures child.Some? ==> fresh(child.value) && Beside(base, child.value) && child.value.Counts() == base.Counts()
    ensures child.Some? ==> child.value.keys == base.keys && child.value.values == base.values
  {
    if base.pendingNonce != 0 { return None; }
    var shared := Share(base);
    return Some(shared);
  }

  /** One append on a child: rows land behind the base's, which stay as they are. */
  method Extend<H, K(0), V(0), O>(base: Cache<H, K, V, O>, child: Cache<H, K, V, O>, hidden: seq<H>)
    returns (outputs: Option<seq<O>>)
    requires Beside(base, child)
    modifies child, child.keys, child.values
    ensures Beside(base, child)
    ensures (child.keys == old(child.keys) && child.values == old(child.values))
      || (fresh(child.keys) && fresh(child.values))
    ensures base.Keys() == old(base.Keys()) && base.Values() == old(base.Values())
    ensures outputs.None? <==> Refused(old(child.Counts()), base.growth, base.admitted, |hidden|)
    ensures child.Counts() == Appended(old(child.Counts()), base.growth, base.admitted, |hidden|)
    ensures child.keys == old(child.keys) <==> InPlace(old(child.Counts()), |hidden|, outputs.None?)
    ensures outputs.None? ==> child.Keys() == old(child.Keys()) && child.Values() == old(child.Values())
    ensures outputs.Some? ==> child.Keys() == old(child.Keys()) + MapKeys(base.ops, hidden)
    ensures outputs.Some? ==> child.Values() == old(child.Values()) + MapValues(base.ops, hidden)
    ensures outputs.Some? ==> outputs.value == Outputs(base.ops, old(child.Keys()), old(child.Values()), hidden)
  {
    hide GrownCapacity, Outputs, MapKeys, MapValues, Cache.Live, Overwrite;
    ghost var n := base.length;
    outputs := Append(child, hidden);
    assert child.Keys()[..n] == old(child.Keys())[..n] && child.Values()[..n] == old(child.Values())[..n];
    assert child.keys[..n] == child.Keys()[..n] && child.values[..n] == child.Values()[..n];
    assert old(child.keys)[..n] == old(child.Keys())[..n] && old(child.values)[..n] == old(child.Values())[..n] by {
      OverwriteKeeps(old(child.keys[..]), old(child.length), MapKeys(base.ops, hidden), n);
      OverwriteKeeps(old(child.values[..]), old(child.length), MapValues(base.ops, hidden), n);
    }
  }

  lemma OverwriteKeeps<T>(slab: seq<T>, at: nat, rows: seq<T>, n: nat)
    requires n <= at <= |slab|
    ensures at + |rows| <= |slab| ==> Overwrite(slab, at, rows)[..n] == slab[..n]
  {
  }

  /** An append that is prepared, staged in place or not, and then cancelled. */
  method Abandon<H, K(0), V(0), O>(base: Cache<H, K, V, O>, child: Cache<H, K, V, O>, hidden: seq<H>)
    requires Beside(base, child)
    modifies child, child.keys, child.values
    ensures Beside(base, child)
    ensures (child.keys == old(child.keys) && child.values == old(child.values))
      || (fresh(child.keys) && fresh(child.values))
    ensures base.Keys() == old(base.Keys()) && base.Values() == old(base.Values())
    ensures child.Counts() == Ticketed(old(child.Counts()), base.admitted, |hidden|)
    ensures child.Keys() == old(child.Keys()) && child.Values() == old(child.Values())
  {
    hide GrownCapacity, Outputs, MapKeys, MapValues, Overwrite;
    ghost var n := base.length;
    var ticket := child.Prepare(hidden);
    if ticket.Ok? {
      var cancelled := child.Cancel(ticket.value);
    }
    assert child.Keys()[..n] == old(child.Keys())[..n] && child.Values()[..n] == old(child.Values())[..n];
    assert child.keys[..n] == child.Keys()[..n] && child.values[..n] == child.Values()[..n];
  }

  // ---------------------------------------------------------------- runs

  /** What may happen on a fork or a branch: a commit, or a cancelled prepare. */
  datatype BranchOp<H> = Extend(hidden: seq<H>) | Abandon(hidden: seq<H>)

  function AfterOp<H>(c: Counters, growth: real, admitted: nat, op: BranchOp<H>): Counters {
    match op
    case Extend(hidden) => Appended(c, growth, admitted, |hidden|)
    case Abandon(hidden) => Ticketed(c, admitted, |hidden|)
  }

  /** The positions one step leaves on the branch: those of an append that is not refused. */
  function Taken<H>(c: Counters, growth: real, admitted: nat, op: BranchOp<H>): seq<H> {
    if op.Extend? && !Refused(c, growth, admitted, |op.hidden|) then op.hidden else []
  }

  /** The counters after a run. */
  function AfterOps<H>(c: Counters, growth: real, admitted: nat, script: seq<BranchOp<H>>): Counters {
    if script == [] then c else
      var n := |script| - 1;
      AfterOp(AfterOps(c, growth, admitted, script[..n]), growth, admitted, script[n])
  }

  /** The positions a run leaves on the branch, in order. */
  function Accepted<H>(c: Counters, growth: real, admitted: nat, script: seq<BranchOp<H>>): seq<H> {
    if script == [] then [] else
      var n := |script| - 1;
      Accepted(c, growth, admitted, script[..n])
        + Taken(AfterOps(c, growth, admitted, script[..n]), growth, admitted, script[n])
  }

  lemma ScriptStep<H>(c: Counters, growth: real, admitted: nat, script: seq<BranchOp<H>>, n: nat)
    requires n < |script|
    ensures var before := AfterOps(c, growth, admitted, script[..n]);
      && AfterOps(c, growth, admitted, script[..n + 1]) == AfterOp(before, growth, admitted, script[n])
      && Accepted(c, growth, admitted, script[..n + 1])
        == Accepted(c, growth, admitted, script[..n]) + Taken(before, growth, admitted, script[n])
  {
    hide AfterOp, Taken;
    assert script[..n + 1][..n] == script[..n];
  }

  /** The child holds the base's rows followed by those of these positions. */
  ghost predicate Ahead<H, K(0), V(0), O>(base: Cache<H, K, V, O>, child: Cache<H, K, V, O>, keys: seq<K>,
                                          values: seq<V>, positions: seq<H>)
    reads base, base.Repr(), child, child.Repr()
  {
    && Beside(base, child) && |keys| == |values| && base.Keys() == keys && base.Values() == values
    && child.Keys() == keys + MapKeys(base.ops, positions) && child.Values() == values + MapValues(base.ops, positions)
  }

  /** One step on a fork or a branch. */
  method RunOp<H, K(0), V(0), O>(base: Cache<H, K, V, O>, child: Cache<H, K, V, O>, op: BranchOp<H>,
                                 ghost keys: seq<K>, ghost values: seq<V>, ghost positions: seq<H>)
    returns (more: seq<H>, outputs: seq<O>)
    requires Ahead(base, child, keys, values, positions)
    modifies child, child.keys, child.values
    ensures more == Taken(old(child.Counts()), base.growth, base.admitted, op)
    ensures child.Counts() == AfterOp(old(child.Counts()), base.growth, base.admitted, op)
    ensures Ahead(base, child, keys, values, positions + more)
    ensures (child.keys == old(child.keys) && child.values == old(child.values))
      || (fresh(child.keys) && fresh(child.values))
    ensures Outputs(base.ops, keys, values, positions) + outputs == Outputs(base.ops, keys, values, positions + more)
  {
    hide Outputs, MapKeys, MapValues, GrownCapacity, Cache.Live, Refused, Appended, Ticketed, Overwrite, Cache.Valid;
    match op {
      case Extend(hidden) =>
        DecodedMore(base.ops, keys, values, positions, hidden);
        var extended := Extend(base, child, hidden);
        if extended.Some? { return hidden, extended.value; }
      case Abandon(hidden) =>
        Abandon(base, child, hidden);
    }
    assert positions + [] == positions;
    return [], [];
  }

  /**
   * Any run on a fork or a branch that alone uses the base: the base keeps its rows, length and version,
   * and the child holds the base's rows followed by those of exactly the appends that the counters do not
   * refuse, with the outputs of decoding them one at a time on the base.
   */
  method RunBranch<H, K(0), V(0), O>(base: Cache<H, K, V, O>, child: Cache<H, K, V, O>, script: seq<BranchOp<H>>)
    returns (positions: seq<H>, outputs: seq<O>)
    requires Beside(base, child) && child.length == base.length
    modifies child, child.keys, child.values
    ensures positions == Accepted(old(child.Counts()), base.growth, base.admitted, script)
    ensures child.Counts() == AfterOps(old(child.Counts()), base.growth, base.admitted, script)
    ensures Ahead(base, child, old(base.Keys()), old(base.Values()), positions)
    ensures outputs == Outputs(base.ops, old(base.Keys()), old(base.Values()), positions)
    ensures Lawful(base.ops) ==>
      AttendsBySoftmax(base.ops, old(base.Keys()), old(base.Values()), positions, outputs)
    ensures (child.keys == old(child.keys) && child.values == old(child.values))
      || (fresh(child.keys) && fresh(child.values))
  {
    positions, outputs := [], [];
    ghost var keys, values, counts := base.Keys(), base.Values(), child.Counts();
    NothingDecoded(base.ops, keys, values);
    NothingRun(counts, base.growth, base.admitted, script);
    assert Ahead(base, child, keys, values, []);
    hide Outputs, MapKeys, MapValues, GrownCapacity, Cache.Live, Cache.Valid, Accepted, AfterOps, AfterOp, Taken, Ahead,
         Beside, Overwrite, AttendsBySoftmax, Lawful;
    for n := 0 to |script|
      invariant Ahead(base, child, keys, values, positions)
      invariant (child.keys == old(child.keys) && child.values == old(child.values))
        || (fresh(child.keys) && fresh(child.values))
      invariant positions == Accepted(counts, base.growth, base.admitted, script[..n])
      invariant child.Counts() == AfterOps(counts, base.growth, base.admitted, script[..n])
      invariant outputs == Outputs(base.ops, keys, values, positions)
    {
      ScriptStep(counts, base.growth, base.admitted, script, n);
      var more, decoded := RunOp(base, child, script[n], keys, values, positions);
      positions, outputs := positions + more, outputs + decoded;
    }
    assert script[..|script|] == script;
    if Lawful(base.ops) { OutputsAreMeans(base.ops, keys, values, positions); }
  }

  lemma MappedPrefix<H, K, V, O>(ops: Ops<H, K, V, O>, positions: seq<H>, n: nat)
    requires n <= |positions|
    ensures MapKeys(ops, positions)[..n] == MapKeys(ops, positions[..n])
    ensures MapValues(ops, positions)[..n] == MapValues(ops, positions[..n])
  {
  }

  lemma NothingRun<H>(c: Counters, growth: real, admitted: nat, script: seq<BranchOp<H>>)
    ensures Accepted(c, growth, admitted, script[..0]) == [] && AfterOps(c, growth, admitted, script[..0]) == c
  {
    assert script[..0] == [];
  }

  lemma NothingDecoded<H, K, V, O>(ops: Ops<H, K, V, O>, keys: seq<K>, values: seq<V>)
    requires |keys| == |values|
    ensures keys + MapKeys(ops, []) == keys && values + MapValues(ops, []) == values
    ensures Outputs(ops, keys, values, []) == []
  {
  }

  lemma DecodedMore<H, K, V, O>(ops: Ops<H, K, V, O>, keys: seq<K>, values: seq<V>, positions: seq<H>, hidden: seq<H>)
    requires |keys| == |values|
    ensures keys + MapKeys(ops, positions) + MapKeys(ops, hidden) == keys + MapKeys(ops, positions + hidden)
    ensures values + MapValues(ops, positions) + MapValues(ops, hidden) == values + MapValues(ops, positions + hidden)
    ensures Outputs(ops, keys, values, positions)
      + Outputs(ops, keys + MapKeys(ops, positions), values + MapValues(ops, positions), hidden)
      == Outputs(ops, keys, values, positions + hidden)
  {
    hide MapKeys, MapValues, Outputs;
    OutputsConcat(ops, keys, values, positions, hidden);
  }

  /**
   * An exclusive fork: whatever is then prepared, committed or cancelled on it, the base stays as it was,
   * its committed rows included, so discarding the fork restores the base.
   */
  method RunFork<H, K(0), V(0), O>(base: Cache<H, K, V, O>, script: seq<BranchOp<H>>)
    returns (child: Option<Cache<H, K, V, O>>, positions: seq<H>, outputs: seq<O>)
    requires base.Valid()
    modifies base.keys, base.values
    ensures child.None? <==> base.pending != null
    ensures unchanged(base) && base.Valid() && base.Keys() == old(base.Keys()) && base.Values() == old(base.Values())
    ensures child.Some? ==> fresh(child.value) && Ahead(base, child.value, base.Keys(), base.Values(), positions)
    ensures child.Some? ==> positions == Accepted(base.Counts(), base.growth, base.admitted, script)
    ensures child.Some? ==> outputs == Outputs(base.ops, base.Keys(), base.Values(), positions)
  {
    hide Outputs, GrownCapacity, Cache.Live, Accepted, Refused, MapKeys, MapValues;
    positions, outputs := [], [];
    child := ForkCommitted(base);
    if child.Some? {
      positions, outputs := RunBranch(base, child.value, script);
    }
  }

  // ---------------------------------------------------------------- transactions

  class Transaction<H, K(0), V(0), O> {
    var base: Cache?<H, K, V, O>
    const working: Cache<H, K, V, O>
    const baseLength: nat
    const expectedVersion: nat
    const maximum: nat
    var published: bool

    constructor (base: Cache<H, K, V, O>, working: Cache<H, K, V, O>, maximum: nat)
      ensures this.base == base && this.working == working && this.maximum == maximum && !published
      ensures baseLength == base.length && expectedVersion == base.version
    {
      this.base, this.working, this.maximum, published := base, working, maximum, false;
      baseLength, expectedVersion := base.length, base.version;
    }

    /** The transaction is live and its base has not moved. */
    ghost predicate Attached(base: Cache<H, K, V, O>)
      reads this, working, working.Repr(), base, base.Repr()
    {
      && this.base == base && !published && Beside(base, working)
      && base.length == baseLength && base.version == expectedVersion
    }

    function Completed(): nat
      reads this, working
    {
      if working.length < baseLength then 0 else working.length - baseLength
    }

    /** The checks before a prefix of the branch may be published. */
    method PreflightPublishPrefix(positions: nat) returns (ok: bool)
      requires working.Valid() && (base != null ==> base.Valid()) && expectedVersion == baseLength
      ensures ok <==> (
        && !published && base != null && positions <= maximum && positions <= Completed()
        && base.pending == null && base.version == expectedVersion
        && baseLength <= working.length && working.pending == null)
    {
      if published || base == null || positions > maximum || positions > Completed() { return false; }
      if base.pendingNonce != 0 || base.version != expectedVersion || base.length != baseLength { return false; }
      if working.pendingNonce != 0 || working.version != expectedVersion + Completed()
        || working.length != baseLength + Completed()
         || working.capacity < working.length || working.capacity > working.admitted {
        return false;
      }
      return true;
    }

    /** Move the first positions of the branch into the base. */
    method PublishPrefix(base: Cache<H, K, V, O>, positions: nat)
      requires Attached(base) && positions <= Completed()
      modifies this, base
      ensures base.Valid() && base.pending == null && published && this.base == null
      ensures base.length == baseLength + positions && base.version == expectedVersion + positions
      ensures base.Keys() == old(working.Keys())[..baseLength + positions]
      ensures base.Values() == old(working.Values())[..baseLength + positions]
      ensures positions == 0 ==> unchanged(base)
      ensures positions != 0 ==> base.keys == working.keys && base.values == working.values
      ensures positions != 0 ==> base.capacity == working.capacity && base.nextNonce == working.nextNonce
    {
      hide Cache.Live;
      if positions != 0 {
        base.keys, base.values := working.keys, working.values;
        base.capacity := working.capacity;
        base.length := baseLength + positions;
        base.version := expectedVersion + positions;
        base.nextNonce := working.nextNonce;
      }
      published := true;
      this.base := null;
    }

    method Cancel()
      modifies this
      ensures published && base == null
    {
      published := true;
      base := null;
    }
  }

  /** Open a branch of at most `maximum` positions. */
  method Begin<H, K(0), V(0), O>(base: Cache<H, K, V, O>, maximum: nat) returns (tx: Option<Transaction<H, K, V, O>>)
    requires base.Valid()
    ensures tx.None? <==> maximum == 0 || !base.CanAppend(maximum) || base.pending != null
    ensures tx.Some? ==>
      fresh(tx.value) && fresh(tx.value.working) && tx.value.Attached(base) && tx.value.maximum == maximum
    ensures tx.Some? ==> tx.value.working.Counts() == base.Counts() && tx.value.expectedVersion == tx.value.baseLength
    ensures tx.Some? ==> tx.value.working.keys == base.keys && tx.value.working.values == base.values
  {
    if maximum == 0 || !base.CanAppend(maximum) { return None; }
    if base.pendingNonce != 0 { return None; }
    if maximum > U64_MAX - base.version { return None; }
    var working := Share(base);
    var branch := new Transaction(base, working, maximum);
    return Some(branch);
  }

  /**
   * Speculative decoding on a branch: after any run the base is either exactly what it was or its old rows
   * followed by the first `accepted` positions of the branch, and it is published exactly when that prefix
   * is within the branch and its bound.
   */
  method Speculate<H, K(0), V(0), O>(base: Cache<H, K, V, O>, maximum: nat, script: seq<BranchOp<H>>, accepted: nat)
    returns (published: bool, positions: seq<H>, outputs: seq<O>)
    requires base.Valid() && base.pending == null && 0 < maximum && base.CanAppend(maximum)
    modifies base, base.keys, base.values
    ensures base.Valid() && base.pending == null
    ensures positions == Accepted(old(base.Counts()), base.growth, base.admitted, script)
    ensures Lawful(base.ops) ==>
      AttendsBySoftmax(base.ops, old(base.Keys()), old(base.Values()), positions, outputs)
    ensures published <==> accepted <= maximum && accepted <= |positions|
    ensures published ==> base.Keys() == old(base.Keys()) + MapKeys(base.ops, positions[..accepted])
    ensures published ==> base.Values() == old(base.Values()) + MapValues(base.ops, positions[..accepted])
    ensures published ==> base.length == old(base.length) + accepted && base.version == old(base.version) + accepted
    ensures !published ==> unchanged(base) && base.Keys() == old(base.Keys()) && base.Values() == old(base.Values())
  {
    hide Outputs, GrownCapacity, Cache.Live, Accepted, AfterOps, Refused, Overwrite, MapKeys, MapValues,
         AttendsBySoftmax, Lawful;
    var tx := Begin(base, maximum);
    positions, outputs := RunBranch(base, tx.value.working, script);
    ghost var keys, values := base.Keys(), base.Values();
    assert |tx.value.working.Keys()| == base.length + |positions|;
    assert tx.value.Completed() == |positions|;
    published := tx.value.PreflightPublishPrefix(accepted);
    if published {
      PrefixOfRows(keys, MapKeys(base.ops, positions), accepted);
      PrefixOfRows(values, MapValues(base.ops, positions), accepted);
      tx.value.PublishPrefix(base, accepted);
      MappedPrefix(base.ops, positions, accepted);
    } else {
      tx.value.Cancel();
    }
  }

  lemma PrefixOfRows<T>(before: seq<T>, rows: seq<T>, k: nat)
    requires k <= |rows|
    ensures (before + rows)[..|before| + k] == before + rows[..k]
  {
  }

  // ---------------------------------------------------------------- two live branches

  /** One of two first appends moves to storage of its own. */
  predicate Apart(c: Counters, n: nat, m: nat) {
    c.length + n > c.capacity || c.length + m > c.capacity
  }

  /** The rows the earlier of two branches publishes: on shared storage the later one's lie over its own. */
  function Published<T>(apart: bool, mine: seq<T>, later: seq<T>): (rows: seq<T>)
    ensures |rows| == |mine|
  {
    if apart then mine else later[..Min(|mine|, |later|)] + mine[Min(|mine|, |later|)..]
  }

  /** So it publishes its own rows exactly when the storages are apart or the overlap coincides. */
  lemma PublishedIsOwn<T>(apart: bool, mine: seq<T>, later: seq<T>)
    ensures Published(apart, mine, later) == mine
       <==> apart || mine[..Min(|mine|, |later|)] == later[..Min(|mine|, |later|)]
  {
    var k := Min(|mine|, |later|);
    assert mine == mine[..k] + mine[k..];
    if !apart && Published(apart, mine, later) == mine {
      assert mine[..k] == Published(apart, mine, later)[..k] == later[..k];
    }
  }

  /** Two first appends do not disturb each other: one outgrew the capacity, or they agree on the shared positions. */
  ghost predicate Isolated<H, K, V, O>(ops: Ops<H, K, V, O>, c: Counters, one: seq<H>, other: seq<H>) {
    var shared := Min(|one|, |other|);
    || Apart(c, |one|, |other|)
    || (MapKeys(ops, one)[..shared] == MapKeys(ops, other)[..shared]
      && MapValues(ops, one)[..shared] == MapValues(ops, other)[..shared])
  }

  lemma IsolatedIsOwn<H, K, V, O>(ops: Ops<H, K, V, O>, c: Counters, one: seq<H>, other: seq<H>, keys: seq<K>,
                                  values: seq<V>)
    ensures var apart := Apart(c, |one|, |other|);
      (&& keys + Published(apart, MapKeys(ops, one), MapKeys(ops, other)) == keys + MapKeys(ops, one)
       && values + Published(apart, MapValues(ops, one), MapValues(ops, other)) == values + MapValues(ops, one))
      <==> Isolated(ops, c, one, other)
  {
    hide MapKeys, MapValues, Published;
    var apart := Apart(c, |one|, |other|);
    PublishedIsOwn(apart, MapKeys(ops, one), MapKeys(ops, other));
    PublishedIsOwn(apart, MapValues(ops, one), MapValues(ops, other));
    Cancels(keys, Published(apart, MapKeys(ops, one), MapKeys(ops, other)), MapKeys(ops, one));
    Cancels(values, Published(apart, MapValues(ops, one), MapValues(ops, other)), MapValues(ops, one));
  }

  lemma Cancels<T>(before: seq<T>, a: seq<T>, b: seq<T>)
    ensures before + a == before + b <==> a == b
  {
    if before + a == before + b {
      assert a == (before + a)[|before|..] == (before + b)[|before|..] == b;
    }
  }

  lemma OnlyMine<T>(mine: seq<T>, later: seq<T>)
    ensures Published(true, mine, later) == mine
  {
  }

  lemma OverwrittenLater<T>(slab: seq<T>, rows: seq<T>, mine: seq<T>, later: seq<T>)
    requires |rows| + |mine| <= |slab| && |rows| + |later| <= |slab| && slab[..|rows| + |mine|] == rows + mine
    ensures Overwrite(slab, |rows|, later)[..|rows| + |mine|] == rows + Published(false, mine, later)
  {
    var after := Overwrite(slab, |rows|, later)[..|rows| + |mine|];
    forall i | 0 <= i < |after| ensures after[i] == (rows + Published(false, mine, later))[i] {
      assert i < |rows| + |mine| ==> slab[..|rows| + |mine|][i] == slab[i];
    }
  }

  /** The second branch appends behind the first, on the base's storage unless it outgrows it. */
  method StageOther<H, K(0), V(0), O>(base: Cache<H, K, V, O>, a: Cache<H, K, V, O>, b: Cache<H, K, V, O>,
                                      ghost one: seq<H>, other: seq<H>)
    requires Beside(base, a) && Beside(base, b) && a != b && b.keys == base.keys && b.values == base.values
    requires b.Counts() == base.Counts()
    requires !Refused(base.Counts(), base.growth, base.admitted, |other|)
    requires a.Keys() == base.Keys() + MapKeys(base.ops, one) && a.Values() == base.Values() + MapValues(base.ops, one)
    modifies b, base.keys, base.values
    ensures Beside(base, a) && b.Valid() && base.Keys() == old(base.Keys()) && base.Values() == old(base.Values())
    ensures var apart := a.keys != base.keys || !InPlace(base.Counts(), |other|, false);
      && a.Keys() == base.Keys() + Published(apart, MapKeys(base.ops, one), MapKeys(base.ops, other))
      && a.Values() == base.Values() + Published(apart, MapValues(base.ops, one), MapValues(base.ops, other))
  {
    hide Outputs, GrownCapacity, Cache.Live, MapKeys, MapValues, Overwrite, Published, Refused;
    ghost var keys, values := base.keys[..], base.values[..];
    ghost var rows, otherRows := base.Keys(), base.Values();
    assert base.length + |one| == a.length by { assert |a.Keys()| == a.length; }
    OnlyMine(MapKeys(base.ops, one), MapKeys(base.ops, other));
    OnlyMine(MapValues(base.ops, one), MapValues(base.ops, other));
    var outputs := Append(b, other);
    if InPlace(base.Counts(), |other|, false) {
      OverwriteKeeps(keys, base.length, MapKeys(base.ops, other), base.length);
      OverwriteKeeps(values, base.length, MapValues(base.ops, other), base.length);
      if a.keys == base.keys {
        assert keys[..a.length] == rows + MapKeys(base.ops, one)
          && values[..a.length] == otherRows + MapValues(base.ops, one);
        OverwrittenLater(keys, rows, MapKeys(base.ops, one), MapKeys(base.ops, other));
        OverwrittenLater(values, otherRows, MapValues(base.ops, one), MapValues(base.ops, other));
      }
    }
  }

  /** Both branches have appended, in this order. */
  method StageBoth<H, K(0), V(0), O>(base: Cache<H, K, V, O>, a: Transaction<H, K, V, O>, b: Transaction<H, K, V, O>,
                                     one: seq<H>, other: seq<H>)
    requires a.Attached(base) && b.Attached(base) && a.working != b.working
    requires a.working.Counts() == b.working.Counts() == base.Counts()
    requires a.working.keys == b.working.keys == base.keys && a.working.values == b.working.values == base.values
    requires !Refused(base.Counts(), base.growth, base.admitted, |one|)
    requires !Refused(base.Counts(), base.growth, base.admitted, |other|)
    modifies a.working, b.working, base.keys, base.values
    ensures a.Attached(base) && a.Completed() == |one| && b.working.Valid()
    ensures base.Keys() == old(base.Keys()) && base.Values() == old(base.Values())
    ensures var apart := Apart(base.Counts(), |one|, |other|);
      && a.working.Keys() == base.Keys() + Published(apart, MapKeys(base.ops, one), MapKeys(base.ops, other))
      && a.working.Values() == base.Values() + Published(apart, MapValues(base.ops, one), MapValues(base.ops, other))
  {
    hide Outputs, GrownCapacity, Cache.Live, MapKeys, MapValues, Overwrite, Published, Refused;
    var outputs := Extend(base, a.working, one);
    assert |a.working.Keys()| == base.length + |one|;
    StageOther(base, a.working, b.working, one, other);
  }

  /** Two branches of one base, each with a first append, in this order. */
  method Stage<H, K(0), V(0), O>(base: Cache<H, K, V, O>, one: seq<H>, other: seq<H>)
    returns (first: Transaction<H, K, V, O>, second: Transaction<H, K, V, O>)
    requires base.Valid() && base.pending == null
    requires !Refused(base.Counts(), base.growth, base.admitted, |one|)
    requires !Refused(base.Counts(), base.growth, base.admitted, |other|)
    modifies base.keys, base.values
    ensures first.Attached(base) && fresh(first) && first.Completed() == first.maximum == |one|
    ensures fresh(second) && fresh(second.working) && first != second && first.working != second.working
    ensures second.working.Valid()
    ensures second.base == base
    ensures second.expectedVersion == second.baseLength == base.version == first.expectedVersion == first.baseLength
    ensures base.Keys() == old(base.Keys()) && base.Values() == old(base.Values())
    ensures var apart := Apart(base.Counts(), |one|, |other|);
      && first.working.Keys() == base.Keys() + Published(apart, MapKeys(base.ops, one), MapKeys(base.ops, other))
      && first.working.Values() == base.Values()
        + Published(apart, MapValues(base.ops, one), MapValues(base.ops, other))
  {
    hide Outputs, GrownCapacity, Cache.Live, MapKeys, MapValues, Overwrite, Published, Apart, Overflows;
    var a := Begin(base, |one|);
    var b := Begin(base, |other|);
    first, second := a.value, b.value;
    StageBoth(base, first, second, one, other);
  }

  /**
   * Two branches of one base, each with a first append, in this order; then the first publishes.  The
   * version check refuses the second, but it does not isolate the first: the rows published are the
   * first branch's own if and only if one of the appends outgrew the capacity, or the two agree on the
   * positions they share.
   */
  method TwoBranches<H, K(0), V(0), O>(base: Cache<H, K, V, O>, one: seq<H>, other: seq<H>)
    returns (accepted: bool, late: bool)
    requires base.Valid() && base.pending == null
    requires !Refused(base.Counts(), base.growth, base.admitted, |one|)
    requires !Refused(base.Counts(), base.growth, base.admitted, |other|)
    modifies base, base.keys, base.values
    ensures accepted && !late && base.Valid()
    ensures base.length == old(base.length) + |one| && base.version == old(base.version) + |one|
    ensures var apart := Apart(old(base.Counts()), |one|, |other|);
      && base.Keys() == old(base.Keys()) + Published(apart, MapKeys(base.ops, one), MapKeys(base.ops, other))
      && base.Values() == old(base.Values()) + Published(apart, MapValues(base.ops, one), MapValues(base.ops, other))
    ensures Isolated(base.ops, old(base.Counts()), one, other) <==> (
      && base.Keys() == old(base.Keys()) + MapKeys(base.ops, one)
      && base.Values() == old(base.Values()) + MapValues(base.ops, one))
  {
    hide Outputs, GrownCapacity, Cache.Live, MapKeys, MapValues, Overwrite, Published, Isolated, Apart;
    assert |one| > 0;
    hide Refused, Admits;
    var first, second := Stage(base, one, other);
    accepted := first.PreflightPublishPrefix(|one|);
    first.PublishPrefix(base, |one|);
    late := second.PreflightPublishPrefix(|other|);
    IsolatedIsOwn(base.ops, old(base.Counts()), one, other, old(base.Keys()), old(base.Values()));
  }
}
