/**
 * The copy-on-write context cache of native/provider_gate/provider_dspark_model.cpp.  Snapshots share
 * the ten tensors of the cache, rows are appended in place, and `requiresFork` alone decides when the
 * tensors must be copied first.  The element type V is one row of one tensor; rows are opaque.
 */
module DSparkCache {

  const LAYERS: nat := 5
  /** One latent and one positional tensor for each layer. */
  const TENSORS: nat := 2 * LAYERS
  const U64_MAX: nat := 0xFFFF_FFFF_FFFF_FFFF

  datatype Outcome = Ok | InvalidArgument | Overflow

  datatype Snapshot<V> = Snapshot(owner: object, generation: nat, length: int, capacity: int, storage: seq<array<V>>)

  /** A snapshot that can be read: the checks of `DSparkCacheSnapshot::context` and of `restore` on its tensors. */
  predicate Readable<V>(s: Snapshot<V>) {
    && 0 <= s.length <= s.capacity
    && |s.storage| == TENSORS
    && forall k :: 0 <= k < TENSORS ==> s.storage[k].Length == s.capacity
  }

  /** The rows a snapshot reads now. */
  ghost function View<V>(s: Snapshot<V>): (rows: seq<seq<V>>)
    requires Readable(s)
    reads s.storage
    ensures |rows| == TENSORS
    ensures forall k :: 0 <= k < TENSORS ==> rows[k] == s.storage[k][..s.length]
  {
    seq(TENSORS, k requires 0 <= k < TENSORS reads s.storage requires Readable(s) => s.storage[k][..s.length])
  }

  function Max(a: int, b: int): int { if a < b then b else a }
  function Min(a: int, b: int): int { if a < b then a else b }

  /** base, 2 * base, 4 * base, ... */
  function Doubled(base: nat, times: nat): nat {
    if times == 0 then base else 2 * Doubled(base, times - 1)
  }

  /** Doubled so many times and not once more than the request needs, within the context limit. */
  predicate DoublesTo(capacity: nat, required: nat, maxPosition: nat, times: nat, next: nat) {
    && next == Min(maxPosition, Doubled(Max(8, capacity), times))
    && (times > 0 ==> Doubled(Max(8, capacity), times - 1) < required)
  }

  /**
   * The doubling loop of `ensure_capacity`: the first of base * 2^k that holds the request, or the
   * context limit when doubling again would pass it.
   */
  method NextCapacity(capacity: nat, required: nat, maxPosition: nat) returns (next: nat, ghost times: nat)
    requires capacity <= maxPosition && 1 <= required <= maxPosition
    ensures required <= next <= maxPosition && capacity <= next
    ensures DoublesTo(capacity, required, maxPosition, times, next)
  {
    next := Max(8, capacity);
    times := 0;
    while next < required
      invariant next == Doubled(Max(8, capacity), times) && 8 <= next && capacity <= next
      invariant times > 0 ==> Doubled(Max(8, capacity), times - 1) < required
      decreases required - next
    {
      times := times + 1;
      if next > maxPosition / 2 {
        next := maxPosition;
        break;
      }
      next := next * 2;
    }
    next := Min(next, maxPosition);
  }

  /** Ten new tensors of `capacity` rows, each beginning with the given prefix. */
  method Allocate<V(0)>(capacity: nat, prefixes: seq<seq<V>>) returns (tensors: seq<array<V>>)
    requires |prefixes| == TENSORS && forall k :: 0 <= k < TENSORS ==> |prefixes[k]| <= capacity
    ensures |tensors| == TENSORS && fresh(tensors)
    ensures forall k :: 0 <= k < TENSORS ==> tensors[k].Length == capacity && tensors[k][..|prefixes[k]|] == prefixes[k]
    ensures forall j, k :: 0 <= j < k < TENSORS ==> tensors[j] != tensors[k]
  {
    tensors := [];
    while |tensors| < TENSORS
      invariant |tensors| <= TENSORS && fresh(tensors)
      invariant forall k :: 0 <= k < |tensors| ==>
        tensors[k].Length == capacity && tensors[k][..|prefixes[k]|] == prefixes[k]
      invariant forall j, k :: 0 <= j < k < |tensors| ==> tensors[j] != tensors[k]
    {
      var prefix := prefixes[|tensors|];
      var tensor := new V[capacity];
      forall i | 0 <= i < |prefix| { tensor[i] := prefix[i]; }
      tensors := tensors + [tensor];
    }
  }

  /** Overwrite the rows from `at` on, tensor by tensor. */
  method WriteRows<V>(tensors: seq<array<V>>, at: nat, rows: seq<seq<V>>)
    requires |tensors| == |rows|
    requires forall k :: 0 <= k < |tensors| ==> at + |rows[k]| <= tensors[k].Length
    requires forall j, k :: 0 <= j < k < |tensors| ==> tensors[j] != tensors[k]
    modifies tensors
    ensures forall k :: 0 <= k < |tensors| ==> Overwritten(old(tensors[k][..]), at, rows[k], tensors[k][..])
  {
    for k := 0 to |tensors|
      invariant forall j :: 0 <= j < k ==> Overwritten(old(tensors[j][..]), at, rows[j], tensors[j][..])
      invariant forall j :: k <= j < |tensors| ==> tensors[j][..] == old(tensors[j][..])
    {
      forall i | 0 <= i < |rows[k]| { tensors[k][at + i] := rows[k][i]; }
      assert Overwritten(old(tensors[k][..]), at, rows[k], tensors[k][..]);
    }
  }

  /** `after` is `before` with `rows` written from `at` on. */
  ghost predicate Overwritten<V>(before: seq<V>, at: nat, rows: seq<V>, after: seq<V>) {
    && |after| == |before| && at + |rows| <= |before|
    && after[..at] == before[..at]
    && after[at..at + |rows|] == rows
    && after[at + |rows|..] == before[at + |rows|..]
  }

  /** A snapshot together with the rows it held when it was taken. */
  datatype Record<V> = Record(snapshot: Snapshot<V>, rows: seq<seq<V>>)

  class Cache<V(0)> {
    const maxPosition: nat
    var length: nat
    var capacity: nat
    var generation: nat
    var requiresFork: bool
    var storage: seq<array<V>>

    /** Every snapshot ever taken, and the contents the cache had under every generation number. */
    ghost var taken: seq<Record<V>>
    ghost var history: map<nat, seq<seq<V>>>
    ghost var Repr: set<array<V>>

    ghost predicate Shaped()
      reads this
    {
      && 0 <= length <= capacity <= maxPosition
      && |storage| == TENSORS
      && forall k :: 0 <= k < TENSORS ==> storage[k] in Repr && storage[k].Length == capacity
    }

    /** The rows of every tensor that are part of the context. */
    ghost function Contents(): (rows: seq<seq<V>>)
      requires Shaped()
      reads this, storage
      ensures |rows| == TENSORS
      ensures forall k :: 0 <= k < TENSORS ==> rows[k] == storage[k][..length]
    {
      seq(TENSORS, k requires 0 <= k < TENSORS reads this, storage requires Shaped() => storage[k][..length])
    }

    /** Rows from `length` on may be written in place: no tensor is repeated, and no snapshot reads that far. */
    ghost predicate Exclusive()
      requires Shaped()
      reads this
    {
      && (forall j, k :: 0 <= j < k < TENSORS ==> storage[j] != storage[k])
      && forall r, a :: r in taken && a in r.snapshot.storage && a in storage ==> r.snapshot.length <= length
    }

    ghost predicate RecordOk(r: Record<V>, repr: set<array<V>>, latest: nat)
      reads repr
    {
      && Readable(r.snapshot)
      && (forall k :: 0 <= k < TENSORS ==> r.snapshot.storage[k] in repr)
      && r.snapshot.owner == this && r.snapshot.generation <= latest
      && r.snapshot.capacity <= maxPosition
      && r.rows == View(r.snapshot)
    }

    /** The invariant without its last clause, that the current generation number is on record. */
    ghost predicate Consistent()
      reads this, Repr
    {
      && Shaped()
      && (!requiresFork ==> Exclusive())
      && (forall r :: r in taken ==> RecordOk(r, Repr, generation))
      && (forall g :: g in history ==> g <= generation)
    }

    ghost predicate Valid()
      reads this, Repr
    {
      Consistent() && generation in history && history[generation] == Contents()
    }

    /** What every operation keeps: the snapshots taken so far and what each generation number meant. */
    twostate predicate Remembers()
      reads this
    {
      && old(taken) <= taken
      && forall g :: g in old(history) ==> g in history && history[g] == old(history[g])
    }

    /** Two moments with the same generation number have the same contents, whatever happened in between. */
    twostate lemma GenerationIdentifies()
      requires old(Valid()) && Valid() && Remembers() && generation == old(generation)
      ensures length == old(length) && Contents() == old(Contents())
    {
      assert |Contents()[0]| == length && |old(Contents())[0]| == old(length);
    }

    constructor (maxPosition: nat)
      ensures Valid() && fresh(Repr) && this.maxPosition == maxPosition
      ensures generation == 0 && taken == [] && forall k :: 0 <= k < TENSORS ==> Contents()[k] == []
    {
      this.maxPosition := maxPosition;
      length, capacity, generation, requiresFork := 0, 0, 0, false;
      storage, taken, history, Repr := [], [], map[], {};
      new;
      storage := Allocate(0, seq(TENSORS, _ => []));
      Repr := set a | a in storage;
      history := map[generation := Contents()];
    }

    /** Give the contents a generation number that was never used. */
    method Advance(next: nat)
      requires Consistent() && generation < next
      modifies this`generation, this`history
      ensures Valid() && Remembers() && generation == next && Contents() == old(Contents())
    {
      generation := next;
      assert Contents() == old(Contents());
      history := history[generation := Contents()];
    }

    method TakeSnapshot() returns (s: Snapshot<V>)
      requires Valid()
      modifies this`taken
      ensures Valid() && Remembers()
      ensures Readable(s) && taken == old(taken) + [Record(s, Contents())]
      ensures View(s) == Contents()
    {
      s := Snapshot(this, generation, length, capacity, storage);
      assert View(s) == Contents();
      taken := taken + [Record(s, Contents())];
    }

    /**
     * Any snapshot value may be offered, also one that was not taken from this cache or whose fields
     * were changed: it is refused or becomes the contents, and the invariant holds either way.
     */
    method Restore(s: Snapshot<V>) returns (r: Outcome)
      requires Valid()
      modifies this
      ensures Valid() && Remembers() && taken == old(taken)
      ensures Repr <= old(Repr) + set a | a in s.storage
      ensures r == old(RestoreVerdict(s))
      ensures r != InvalidArgument <==>
        s.owner == this && 0 <= s.length <= s.capacity <= maxPosition && Readable(s)
      ensures r == Ok <==> r != InvalidArgument && old(generation) != U64_MAX && s.generation != U64_MAX
      ensures r == Ok ==> Contents() == View(s) && generation == Max(old(generation), s.generation) + 1
      ensures r != Ok ==> unchanged(this)
    {
      r := RestoreVerdict(s);
      if r == Ok { Adopt(s); }
    }

    /** The checks of `restore`, in its order. */
    function RestoreVerdict(s: Snapshot<V>): Outcome
      reads this
    {
      if s.owner != this || s.length < 0 || s.capacity < s.length || s.capacity > maxPosition then InvalidArgument
      else if !Readable(s) then InvalidArgument
      else if generation == U64_MAX || s.generation == U64_MAX then Overflow
      else Ok
    }

    method Adopt(s: Snapshot<V>)
      requires Valid() && RestoreVerdict(s) == Ok
      modifies this
      ensures Valid() && Remembers() && taken == old(taken)
      ensures Repr <= old(Repr) + set a | a in s.storage
      ensures Contents() == View(s) && generation == Max(old(generation), s.generation) + 1
    {
      hide RecordOk;
      var sameBoundary := length == s.length && capacity == s.capacity && storage == s.storage;
      storage := s.storage;
      length, capacity := s.length, s.capacity;
      if !sameBoundary { requiresFork := true; }
      Repr := Repr + set a | a in s.storage;
      RecordsSurvive();
      assert Contents() == View(s);
      Advance(Max(generation, s.generation) + 1);
    }

    method Clear() returns (r: Outcome)
      requires Valid()
      modifies this
      ensures Valid() && Remembers() && taken == old(taken)
      ensures fresh(Repr - old(Repr))
      ensures r == if old(generation) == U64_MAX then Overflow else Ok
      ensures r == Ok ==> generation == old(generation) + 1 && forall k :: 0 <= k < TENSORS ==> Contents()[k] == []
      ensures r != Ok ==> unchanged(this)
    {
      if generation == U64_MAX { return Overflow; }
      storage := Allocate(0, seq(TENSORS, _ => []));
      length, capacity, requiresFork := 0, 0, false;
      Repr := Repr + set a | a in storage;
      RecordsSurvive();
      Advance(generation + 1);
      return Ok;
    }

    /** Make room for `required` rows that nobody else reads; the contents stay what they are. */
    method EnsureCapacity(required: nat)
      requires Valid() && length <= required && 1 <= required <= maxPosition
      modifies this`storage, this`Repr, this`capacity, this`requiresFork
      ensures Valid() && Contents() == old(Contents()) && fresh(Repr - old(Repr))
      ensures required <= capacity && !requiresFork
      ensures required <= old(capacity) && !old(requiresFork) ==> unchanged(this)
      ensures required > old(capacity) || old(requiresFork) ==>
        fresh(storage) && exists times: nat :: DoublesTo(old(capacity), required, maxPosition, times, capacity)
    {
      if required > capacity || requiresFork { Fork(required); }
    }

    /** Copy the rows to tensors of their own, of the next doubled capacity. */
    method Fork(required: nat)
      requires Valid() && length <= required && 1 <= required <= maxPosition
      modifies this`storage, this`Repr, this`capacity, this`requiresFork
      ensures Valid() && Contents() == old(Contents()) && fresh(Repr - old(Repr))
      ensures required <= capacity && !requiresFork && fresh(storage)
      ensures exists times: nat :: DoublesTo(old(capacity), required, maxPosition, times, capacity)
    {
      hide DoublesTo, Doubled, Exclusive, RecordOk;
      var next, _ := NextCapacity(capacity, required, maxPosition);
      ghost var was := Contents();
      storage :=
        Allocate(next,
                 seq(TENSORS, k requires 0 <= k < TENSORS reads this, storage requires Shaped() =>
                   storage[k][..length]));
      capacity := next;
      requiresFork := false;
      Repr := Repr + set a | a in storage;
      NewTensors();
      RecordsSurvive();
      assert Contents() == was;
    }

    method Append(rows: seq<seq<V>>) returns (r: Outcome)
      requires Valid() && |rows| == TENSORS
      modifies this, storage
      ensures Valid() && Remembers() && taken == old(taken)
      ensures fresh(Repr - old(Repr))
      ensures r == old(AppendVerdict(rows))
      ensures r != InvalidArgument <==>
        1 <= |rows[0]| <= maxPosition - old(length) && forall k :: 0 <= k < TENSORS ==> |rows[k]| == |rows[0]|
      ensures r == Ok <==> r != InvalidArgument && old(generation) != U64_MAX
      ensures r == Ok ==> generation == old(generation) + 1
      ensures r == Ok ==> forall k :: 0 <= k < TENSORS ==> Contents()[k] == old(Contents())[k] + rows[k]
      ensures r != Ok ==> unchanged(this) && unchanged(storage)
    {
      r := AppendVerdict(rows);
      if r == Ok {
        EnsureCapacity(length + |rows[0]|);
        AppendRows(rows);
      }
    }

    /** The argument checks of `append`, in its order. */
    function AppendVerdict(rows: seq<seq<V>>): Outcome
      requires |rows| == TENSORS
      reads this
    {
      if |rows[0]| < 1 || |rows[0]| > maxPosition - length then InvalidArgument
      else if exists k :: 0 <= k < TENSORS && |rows[k]| != |rows[0]| then InvalidArgument
      else if generation == U64_MAX then Overflow
      else Ok
    }

    method AppendRows(rows: seq<seq<V>>)
      requires Valid() && |rows| == TENSORS && AppendVerdict(rows) == Ok
      requires length + |rows[0]| <= capacity && !requiresFork
      modifies this, storage
      ensures Valid() && Remembers() && taken == old(taken)
      ensures fresh(Repr - old(Repr))
      ensures generation == old(generation) + 1
      ensures forall k :: 0 <= k < TENSORS ==> Contents()[k] == old(Contents())[k] + rows[k]
    {
      WriteRows(storage, length, rows);
      assert forall k :: 0 <= k < TENSORS ==> Overwritten(old(storage[k][..]), length, rows[k], storage[k][..]);
      KeepsRecords();
      length := length + |rows[0]|;
      Extended(rows);
      Advance(generation + 1);
    }

    twostate lemma Extended(rows: seq<seq<V>>)
      requires |rows| == TENSORS && old(Shaped()) && Shaped() && storage == old(storage)
      requires length == old(length) + |rows[0]| && forall k :: 0 <= k < TENSORS ==> |rows[k]| == |rows[0]|
      requires forall k :: 0 <= k < TENSORS ==> Overwritten(old(storage[k][..]), old(length), rows[k], storage[k][..])
      ensures forall k :: 0 <= k < TENSORS ==> Contents()[k] == old(Contents())[k] + rows[k]
    {
      forall k | 0 <= k < TENSORS ensures storage[k][..length] == old(storage[k][..length]) + rows[k] {
        assert Overwritten(old(storage[k][..]), old(length), rows[k], storage[k][..]);
      }
    }

    /** New tensors, a new length or a new generation leave the snapshots as they are. */
    twostate lemma RecordsSurvive()
      requires old(Valid()) && taken == old(taken) && old(Repr) <= Repr && old(generation) <= generation
      requires forall a :: a in old(Repr) ==> unchanged(a)
      ensures forall r :: r in taken ==> RecordOk(r, Repr, generation)
    {
      forall r | r in taken ensures RecordOk(r, Repr, generation) {
        assert old(RecordOk(r, Repr, generation));
        assert View(r.snapshot) == old(View(r.snapshot));
      }
    }

    /** New tensors are read by no snapshot. */
    twostate lemma NewTensors()
      requires old(Valid()) && Shaped() && taken == old(taken) && fresh(storage)
      requires forall j, k :: 0 <= j < k < TENSORS ==> storage[j] != storage[k]
      ensures Exclusive()
    {
      forall r, a | r in taken && a in r.snapshot.storage ensures a !in storage {
        assert old(RecordOk(r, Repr, generation));
      }
    }

    /** Writing beyond the length of an exclusive cache changes no snapshot's rows. */
    twostate lemma KeepsRecords()
      requires old(Valid()) && old(Exclusive()) && unchanged(this)
      requires forall a :: a in Repr && a !in storage ==> unchanged(a)
      requires forall k :: 0 <= k < TENSORS ==> storage[k][..length] == old(storage[k][..length])
      ensures forall r :: r in taken ==> RecordOk(r, Repr, generation)
    {
      forall r | r in taken ensures RecordOk(r, Repr, generation) {
        forall j | 0 <= j < TENSORS
          ensures r.snapshot.storage[j][..r.snapshot.length] == old(r.snapshot.storage[j][..r.snapshot.length])
        {
          var a := r.snapshot.storage[j];
          if a in storage {
            var k :| 0 <= k < TENSORS && storage[k] == a;
            assert a[..length] == old(a[..length]);
            assert a[..r.snapshot.length] == a[..length][..r.snapshot.length];
          }
        }
        assert View(r.snapshot) == r.rows;
      }
    }
  }
  // ---------------------------------------------------------------- whole scripts of operations

  /** What a client may do, in any order; snapshots are named by the order they were taken in. */
  datatype Op<V> = AppendOp(rows: seq<seq<V>>) | SnapshotOp | RestoreOp(index: nat) | ClearOp

  /** The cache as a value: its rows, and a full copy of them for every snapshot. */
  datatype Ideal<V> = Ideal(rows: seq<seq<V>>, kept: seq<seq<seq<V>>>)

  function Empty<V>(): seq<seq<V>> { seq(TENSORS, _ => []) }

  function IdealStep<V>(ideal: Ideal<V>, op: Op<V>, maxPosition: nat): Ideal<V>
    requires |ideal.rows| == TENSORS
  {
    match op
    case AppendOp(rows) =>
      if |rows| == TENSORS && (forall k :: 0 <= k < TENSORS ==> |rows[k]| == |rows[0]|)
         && 1 <= |rows[0]| <= maxPosition - |ideal.rows[0]|
      then ideal.(rows := seq(TENSORS, k requires 0 <= k < TENSORS => ideal.rows[k] + rows[k]))
      else ideal
    case SnapshotOp => ideal.(kept := ideal.kept + [ideal.rows])
    case RestoreOp(i) => if i < |ideal.kept| then ideal.(rows := ideal.kept[i]) else ideal
    case ClearOp => ideal.(rows := Empty())
  }

  function IdealRun<V>(ops: seq<Op<V>>, maxPosition: nat): (ideal: Ideal<V>)
    ensures |ideal.rows| == TENSORS
    ensures forall c :: c in ideal.kept ==> |c| == TENSORS
  {
    if ops == [] then Ideal(Empty(), []) else
      IdealStep(IdealRun(ops[..|ops| - 1], maxPosition), ops[|ops| - 1], maxPosition)
  }

  lemma StepKeeps<V>(ideal: Ideal<V>, op: Op<V>, maxPosition: nat)
    requires |ideal.rows| == TENSORS
    ensures ideal.kept <= IdealStep(ideal, op, maxPosition).kept
  {
  }

  /** In the value semantics a snapshot, once taken, never changes. */
  lemma {:induction false} KeptForever<V>(ops: seq<Op<V>>, more: seq<Op<V>>, maxPosition: nat)
    ensures IdealRun(ops, maxPosition).kept <= IdealRun(ops + more, maxPosition).kept
  {
    hide IdealStep;
    if more == [] {
      assert ops + more == ops;
    } else {
      var n := |more| - 1;
      KeptForever(ops, more[..n], maxPosition);
      StepKeeps(IdealRun(ops + more[..n], maxPosition), more[n], maxPosition);
      assert (ops + more)[..|ops| + n] == ops + more[..n];
    }
  }

  /** The shared cache and its snapshots agree with the value semantics. */
  ghost predicate Agrees<V(0)>(cache: Cache<V>, snapshots: seq<Snapshot<V>>, ideal: Ideal<V>)
    reads cache, cache.Repr
  {
    && cache.Valid()
    && cache.Contents() == ideal.rows
    && |snapshots| == |cache.taken| == |ideal.kept|
    && forall i :: 0 <= i < |snapshots| ==> cache.taken[i] == Record(snapshots[i], ideal.kept[i])
  }

  method Perform<V(0)>(cache: Cache<V>, snapshots: seq<Snapshot<V>>, op: Op<V>, ghost ideal: Ideal<V>)
    returns (after: seq<Snapshot<V>>)
    requires Agrees(cache, snapshots, ideal) && cache.generation < U64_MAX
    modifies cache, cache.storage
    ensures |ideal.rows| == TENSORS && Agrees(cache, after, IdealStep(ideal, op, cache.maxPosition))
    ensures cache.generation <= old(cache.generation) + 1 && fresh(cache.Repr - old(cache.Repr))
    ensures cache.Remembers()
  {
    after := snapshots;
    match op
    case AppendOp(rows) =>
      if |rows| == TENSORS { var _ := cache.Append(rows); }
      assert cache.Contents() == IdealStep(ideal, op, cache.maxPosition).rows;
    case SnapshotOp =>
      var s := cache.TakeSnapshot();
      after := snapshots + [s];
    case RestoreOp(i) =>
      if i < |snapshots| {
        assert cache.taken[i] in cache.taken;
        var _ := cache.Restore(snapshots[i]);
      }
    case ClearOp =>
      var _ := cache.Clear();
      assert cache.Contents() == Empty();
  }

  /** Every generation number on record stands for the rows of the value semantics at that moment. */
  ghost predicate Identifies<V>(history: map<nat, seq<seq<V>>>, generations: seq<nat>, ops: seq<Op<V>>,
                                maxPosition: nat)
    requires |generations| <= |ops| + 1
  {
    forall i :: 0 <= i < |generations| ==>
      generations[i] in history && history[generations[i]] == IdealRun(ops[..i], maxPosition).rows
  }

  lemma Recorded<V(0)>(cache: Cache<V>, snapshots: seq<Snapshot<V>>, ideal: Ideal<V>)
    requires Agrees(cache, snapshots, ideal)
    ensures cache.Valid() && cache.Contents() == ideal.rows && |snapshots| == |cache.taken| == |ideal.kept|
    ensures cache.generation in cache.history && cache.history[cache.generation] == ideal.rows
    ensures forall i :: 0 <= i < |snapshots| ==> cache.taken[i] == Record(snapshots[i], ideal.kept[i])
  {
  }

  lemma SameNumberSameRows<V>(history: map<nat, seq<seq<V>>>, generations: seq<nat>, ops: seq<Op<V>>, maxPosition: nat)
    requires |generations| == |ops| + 1 && Identifies(history, generations, ops, maxPosition)
    ensures forall i, j :: 0 <= i <= j <= |ops| && generations[i] == generations[j] ==>
      IdealRun(ops[..i], maxPosition).rows == IdealRun(ops[..j], maxPosition).rows
  {
    hide IdealRun;
  }

  lemma RunNext<V>(ops: seq<Op<V>>, n: nat, maxPosition: nat)
    requires n < |ops|
    ensures IdealRun(ops[..n + 1], maxPosition) == IdealStep(IdealRun(ops[..n], maxPosition), ops[n], maxPosition)
  {
    hide IdealStep;
    assert ops[..n + 1][..n] == ops[..n];
  }

  /** One more moment: what earlier generation numbers stand for is remembered. */
  lemma IdentifiesNext<V>(before: map<nat, seq<seq<V>>>, after: map<nat, seq<seq<V>>>, generations: seq<nat>, next: nat,
                          ops: seq<Op<V>>, maxPosition: nat)
    requires |generations| <= |ops| && Identifies(before, generations, ops, maxPosition)
    requires forall g :: g in before ==> g in after && after[g] == before[g]
    requires next in after && after[next] == IdealRun(ops[..|generations|], maxPosition).rows
    ensures Identifies(after, generations + [next], ops, maxPosition)
  {
    hide IdealRun;
  }

  /**
   * Copying on write is invisible: after any script, of any length, the shared cache holds the rows
   * of the value semantics, and so does every snapshot taken on the way.  And the generation number
   * identifies the contents: any two moments of the script with the same number have the same rows.
   */
  method RunScript<V(0)>(ops: seq<Op<V>>, maxPosition: nat)
    returns (cache: Cache<V>, snapshots: seq<Snapshot<V>>, generations: seq<nat>)
    requires |ops| < U64_MAX
    ensures cache.Valid() && cache.Contents() == IdealRun(ops, maxPosition).rows
    ensures |snapshots| == |IdealRun(ops, maxPosition).kept|
    ensures forall i :: 0 <= i < |snapshots| ==>
      Readable(snapshots[i]) && View(snapshots[i]) == IdealRun(ops, maxPosition).kept[i]
    ensures |generations| == |ops| + 1 && generations[|ops|] == cache.generation
    ensures forall i, j :: 0 <= i <= j <= |ops| && generations[i] == generations[j] ==>
      IdealRun(ops[..i], maxPosition).rows == IdealRun(ops[..j], maxPosition).rows
  {
    cache := new Cache(maxPosition);
    snapshots, generations := [], [cache.generation];
    assert cache.Contents() == Empty() && ops[..0] == [];
    hide IdealRun, IdealStep, Agrees, Identifies;
    for n := 0 to |ops|
      invariant fresh(cache) && fresh(cache.Repr) && cache.maxPosition == maxPosition
      invariant Agrees(cache, snapshots, IdealRun(ops[..n], maxPosition)) && cache.generation <= n
      invariant |generations| == n + 1 && generations[n] == cache.generation
      invariant Identifies(cache.history, generations, ops, maxPosition)
    {
      RunNext(ops, n, maxPosition);
      ghost var history := cache.history;
      snapshots := Perform(cache, snapshots, ops[n], IdealRun(ops[..n], maxPosition));
      Recorded(cache, snapshots, IdealRun(ops[..n + 1], maxPosition));
      IdentifiesNext(history, cache.history, generations, cache.generation, ops, maxPosition);
      generations := generations + [cache.generation];
    }
    assert ops[..|ops|] == ops;
    Recorded(cache, snapshots, IdealRun(ops, maxPosition));
    SameNumberSameRows(cache.history, generations, ops, maxPosition);
    forall i | 0 <= i < |snapshots| ensures Readable(snapshots[i]) && View(snapshots[i]) == cache.taken[i].rows {
      assert cache.taken[i] in cache.taken;
    }
  }
}
