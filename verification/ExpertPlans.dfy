/**
 * Capacity policy, sorted ID lists and residency plans of the CUDA expert cache in
 * native/provider_gate/provider_cuda_moe.cpp: what its methods agree on, and what a plan or a batch
 * keeps when more is uploaded or computed.
 */
module ExpertPlans {
  import opened ExpertLru
  import opened ExpertRows
  import opened ExpertStaging
  import opened ExpertStrata
  import opened Wrappers

  const MAX_ROWS: nat := 16
  const MAX_EXPERTS: nat := TOP_K * MAX_ROWS
  const EXPERTS: nat := 896
  const EXPERT_SPAN: nat := 17_547_264
  const TWO_GIB: nat := 0x8000_0000

  // ---------------------------------------------------------------- capacity policy

  datatype Reserve = Auto | Fixed(bytes: nat) | RatioPpm(ppm: nat)
  datatype Policy = Policy(automatic: bool, experts: nat, reserve: Reserve)

  /** The bytes `establish_budget` holds back. */
  function ReserveBytes(reserve: Reserve, free: nat): nat {
    match reserve
    case Auto => if TWO_GIB < free / 5 then free / 5 else TWO_GIB
    case Fixed(bytes) => bytes
    case RatioPpm(ppm) => (free / 1_000_000) * ppm + ((free % 1_000_000) * ppm) / 1_000_000
  }

  /**
   * What is held back: automatically the larger of two GiB and a fifth of the free bytes, and for a ratio
   * as many millionths of the free bytes, although the multiplication is split to stay small.
   */
  lemma ReserveHoldsBack(reserve: Reserve, free: nat)
    ensures reserve.Auto? ==> ReserveBytes(reserve, free) >= 2 * 1024 * 1024 * 1024
    ensures reserve.Auto? ==> free < 5 * ReserveBytes(reserve, free) + 5
    ensures reserve.Auto? ==> ReserveBytes(reserve, free) in {2 * 1024 * 1024 * 1024, free / 5}
    ensures reserve.RatioPpm? ==> ReserveBytes(reserve, free) == free * reserve.ppm / 1_000_000
    ensures reserve.Fixed? ==> ReserveBytes(reserve, free) == reserve.bytes
  {
    if reserve.RatioPpm? {
      SplitProduct(free / 1_000_000, free % 1_000_000, reserve.ppm);
    }
  }

  lemma SplitProduct(whole: nat, part: nat, factor: nat)
    ensures (1_000_000 * whole + part) * factor / 1_000_000 == whole * factor + part * factor / 1_000_000
  {
    var product, rest := whole * factor, part * factor;
    assert (1_000_000 * whole + part) * factor == 1_000_000 * product + rest;
  }

  function ClampCapacity(free: nat, reserve: nat, policy: Policy): nat {
    var safeBytes := if free > reserve then free - reserve else 0;
    var safe := if STRATA * TOP_K < safeBytes / EXPERT_SPAN then STRATA * TOP_K else safeBytes / EXPERT_SPAN;
    if policy.automatic || safe < policy.experts then safe else policy.experts
  }

  /** A capacity is within the clamp exactly when its experts fit behind the reserve, exist, and were asked for. */
  lemma CapacityFits(free: nat, reserve: nat, policy: Policy, n: nat)
    ensures n <= ClampCapacity(free, reserve, policy) <==> (
      && n <= STRATA * TOP_K && (n == 0 || reserve + n * EXPERT_SPAN <= free)
      && (policy.automatic || n <= policy.experts))
  {
  }

  // ---------------------------------------------------------------- sorted ID lists

  predicate Ascending(ids: seq<nat>) {
    forall i, j :: 0 <= i < j < |ids| ==> ids[i] < ids[j]
  }

  /** std::lower_bound on an ascending list. */
  method LowerBound(ids: seq<nat>, id: nat) returns (k: nat)
    requires Ascending(ids)
    ensures k <= |ids|
    ensures forall i :: 0 <= i < k ==> ids[i] < id
    ensures forall i :: k <= i < |ids| ==> id <= ids[i]
  {
    var lo, hi := 0, |ids|;
    while lo < hi
      invariant 0 <= lo <= hi <= |ids|
      invariant forall i :: 0 <= i < lo ==> ids[i] < id
      invariant forall i :: hi <= i < |ids| ==> id <= ids[i]
    {
      var mid := (lo + hi) / 2;
      if ids[mid] < id { lo := mid + 1; } else { hi := mid; }
    }
    k := lo;
  }

  /** The caller's bytes of an expert, `source_for`. */
  method SourceFor<Bytes>(ids: seq<nat>, bytes: seq<Bytes>, expert: nat) returns (source: Option<Bytes>)
    requires Ascending(ids) && |bytes| == |ids|
    ensures source.Some? <==> expert in ids
    ensures source.Some? ==> exists i :: 0 <= i < |ids| && ids[i] == expert && source.value == bytes[i]
  {
    var k := LowerBound(ids, expert);
    if k == |ids| || ids[k] != expert { return None; }
    return Some(bytes[k]);
  }

  /** The IDs that are not in the given set, in order. */
  function Outside(ids: seq<nat>, members: set<nat>): seq<nat> {
    if ids == [] then [] else
      Outside(ids[..|ids| - 1], members) + if ids[|ids| - 1] in members then [] else [ids[|ids| - 1]]
  }

  lemma {:induction false} OutsideSplits(ids: seq<nat>, members: set<nat>)
    requires Ascending(ids)
    ensures Ascending(Outside(ids, members))
    ensures forall id :: id in Outside(ids, members) <==> id in ids && id !in members
  {
    if ids != [] {
      var n := |ids| - 1;
      OutsideSplits(ids[..n], members);
      var before := Outside(ids[..n], members);
      assert ids == ids[..n] + [ids[n]];
      forall i | 0 <= i < |before| ensures before[i] < ids[n] {
        assert before[i] in ids[..n];
      }
    }
  }

  // ---------------------------------------------------------------- plans and rows

  datatype Hit = Hit(expert: nat, tensor: nat)
  datatype Plan = Plan(layer: nat, canonical: seq<nat>, hits: seq<Hit>)

  function HitIds(hits: seq<Hit>): set<nat> { set h | h in hits :: h.expert }

  /** The experts a caller must bring: the canonical ones that were not pinned. */
  function Missing(plan: Plan): seq<nat> { Outside(plan.canonical, HitIds(plan.hits)) }

  /** Appending to the pinned hits an expert outside the list does not change what is missing from it. */
  lemma {:induction false} OutsideIgnores(ids: seq<nat>, members: set<nat>, more: set<nat>)
    requires forall id :: id in ids && id in more ==> id in members
    requires members <= more
    ensures Outside(ids, more) == Outside(ids, members)
  {
    if ids != [] {
      OutsideIgnores(ids[..|ids| - 1], members, more);
    }
  }

  /** The list after a plan's canonical IDs are looked up in order: the resident ones move to the recent end. */
  function PinAll(keys: seq<Key>, slot: nat, ids: seq<nat>): seq<Key> {
    if ids == [] then keys else
      var pinned := PinAll(keys, slot, ids[..|ids| - 1]);
      var key := Key(slot, ids[|ids| - 1]);
      if key in pinned then Without(pinned, key) + [key] else pinned
  }

  lemma PinNext(keys: seq<Key>, slot: nat, ids: seq<nat>, id: nat)
    ensures PinAll(keys, slot, ids + [id]) ==
      var pinned, key := PinAll(keys, slot, ids), Key(slot, id);
      if key in pinned then Without(pinned, key) + [key] else pinned
  {
    hide Without;
    assert (ids + [id])[..|ids|] == ids;
  }

  /** The looked-up IDs are split into the resident ones, which are pinned, and the others. */
  ghost predicate Split(keys: seq<Key>, slot: nat, ids: seq<nat>, hits: seq<Hit>, missing: seq<nat>) {
    && (forall e :: e in HitIds(hits) ==> e in ids)
    && (forall e :: e in ids ==> (e in HitIds(hits) <==> Key(slot, e) in keys))
    && missing == Outside(ids, HitIds(hits))
  }

  lemma NothingPinned(keys: seq<Key>, slot: nat)
    ensures PinAll(keys, slot, []) == keys && Split(keys, slot, [], [], [])
  {
  }

  lemma SplitIs(keys: seq<Key>, slot: nat, ids: seq<nat>, hits: seq<Hit>, missing: seq<nat>)
    requires Split(keys, slot, ids, hits, missing)
    ensures missing == Outside(ids, HitIds(hits))
    ensures forall e :: e in ids ==> (e in HitIds(hits) <==> Key(slot, e) in keys)
  {
  }

  /** One more ID is pinned when it is resident and missing when it is not. */
  lemma SplitNext(keys: seq<Key>, slot: nat, ids: seq<nat>, id: nat, hits: seq<Hit>, missing: seq<nat>, tensor: nat)
    requires Split(keys, slot, ids, hits, missing) && id !in ids
    ensures if Key(slot, id) in keys then Split(keys, slot, ids + [id], hits + [Hit(id, tensor)], missing)
            else Split(keys, slot, ids + [id], hits, missing + [id])
  {
    assert (ids + [id])[..|ids|] == ids;
    if Key(slot, id) in keys {
      assert HitIds(hits + [Hit(id, tensor)]) == HitIds(hits) + {id};
      OutsideIgnores(ids, HitIds(hits), HitIds(hits) + {id});
    }
  }

  /** What `plan` demands of its arguments. */
  predicate CanonicalRequest(id: nat, layer: nat, ids: seq<nat>) {
    && id != 0 && 1 <= layer <= STRATA && 1 <= |ids| <= MAX_EXPERTS && Ascending(ids)
    && forall i :: 0 <= i < |ids| ==> ids[i] < EXPERTS
  }

  /** The loop of `plan` over adjacent IDs. */
  method IsCanonical(ids: seq<nat>) returns (ok: bool)
    ensures ok <==> Ascending(ids) && forall i :: 0 <= i < |ids| ==> ids[i] < EXPERTS
  {
    for n := 0 to |ids|
      invariant Ascending(ids[..n]) && forall i :: 0 <= i < n ==> ids[i] < EXPERTS
    {
      if ids[n] >= EXPERTS || (n != 0 && ids[n - 1] >= ids[n]) {
        return false;
      }
      assert forall i :: 0 <= i < n ==> ids[..n][i] < ids[n];
    }
    assert ids[..|ids|] == ids;
    return true;
  }

  /** The tile is the one the plan was made for. */
  predicate Accepts<V, W>(plan: Plan, rows: seq<Row<V, W>>, missingIds: seq<nat>, spans: nat)
    requires WellShaped(rows)
  {
    && 1 <= |rows| <= MAX_ROWS
    && missingIds == Missing(plan) && spans == |missingIds|
    && (forall i :: 0 <= i < |rows| ==> rows[i].layer == plan.layer)
    && (forall f :: 0 <= f < |rows| * TOP_K ==> RoutedAt(rows, f) in plan.canonical)
    && (forall e :: e in plan.canonical ==> IsRouted(rows, e))
  }

  datatype Outcome<T> =
    | Done(value: T)
    | InvalidArgument
    | Unavailable
    | Recoverable     // allocation failed, the stream drained, the cache was rebuilt or disabled
    | Terminal        // the cache is disabled for good

  /** The outcome of a tile that was carried out, by the failure it ended with. */
  predicate EndsAs<T>(out: Outcome<T>, failure: Failure, drained: bool) {
    && (out.Done? <==> failure.NoFailure?)
    && (out.Recoverable? <==> failure.OutOfMemory? && drained)
  }

  // ---------------------------------------------------------------- faults

  /** What goes wrong with serving one expert, if it comes to that: measuring free memory, or the upload. */
  datatype ServeFault = ServeFault(budget: bool, upload: UploadFault)

  /** What goes wrong with one expert of a tile: serving it, or running its batch. */
  datatype ExpertFault = ExpertFault(serve: ServeFault, launch: Failure)

  /** What goes wrong with a tile, and whether the stream drains and the allocator empties after a failure. */
  datatype TileFaults = TileFaults(setup: Failure, experts: nat -> ExpertFault, reduce: Failure, drained: bool,
                                   emptied: bool)

  /** What goes wrong with opening a plan. */
  datatype PlanFault = PlanFault(budget: bool, host: bool)

  /** The residents and the budget; on them it depends which faults come into play. */
  datatype Residency = Residency(keys: seq<Key>, ready: bool, capacity: nat)

  /** How serving one expert ends; `measured` is the capacity that measuring the free memory now would fix. */
  function Serve(r: Residency, key: Key, measured: nat, fault: ServeFault): (Failure, Residency) {
    if !r.ready && fault.budget then (DeviceError, r) else
      var capacity := if r.ready then r.capacity else measured;
      var failure := if key in r.keys then NoFailure else UploadFailure(fault.upload);
      (failure, Residency(if failure.NoFailure? then Touch(r.keys, capacity, key) else r.keys, true, capacity))
  }

  /** How running one expert of a plan ends. */
  function ExpertRun(plan: Plan, expert: nat, r: Residency, measured: nat, fault: ExpertFault): (Failure, Residency)
    requires plan.layer > 0
  {
    if expert in HitIds(plan.hits) then (fault.launch, r) else
      var (failure, after) := Serve(r, Key(plan.layer - 1, expert), measured, fault.serve);
      (if failure.NoFailure? then fault.launch else failure, after)
  }

  /** How running the first n experts of a plan ends: at the first that fails. */
  function PlanRun(plan: Plan, n: nat, r: Residency, measured: nat, faults: nat -> ExpertFault): (Failure, Residency)
    requires plan.layer > 0 && n <= |plan.canonical|
  {
    if n == 0 then (NoFailure, r) else
      var (failure, after) := PlanRun(plan, n - 1, r, measured, faults);
      if failure.NoFailure? then ExpertRun(plan, plan.canonical[n - 1], after, measured, faults(n - 1))
      else (failure, after)
  }

  lemma PlanRunNone(plan: Plan, r: Residency, measured: nat, faults: nat -> ExpertFault)
    requires plan.layer > 0
    ensures PlanRun(plan, 0, r, measured, faults) == (NoFailure, r)
  {
  }

  lemma PlanRunNext(plan: Plan, n: nat, r: Residency, measured: nat, faults: nat -> ExpertFault)
    requires plan.layer > 0 && n < |plan.canonical| && PlanRun(plan, n, r, measured, faults).0.NoFailure?
    ensures PlanRun(plan, n + 1, r, measured, faults) ==
      ExpertRun(plan, plan.canonical[n], PlanRun(plan, n, r, measured, faults).1, measured, faults(n))
  {
    hide ExpertRun;
  }

  /** A failure stays: what comes after it is not run. */
  lemma {:induction false} FailureStays(plan: Plan, n: nat, m: nat, r: Residency, measured: nat,
                                        faults: nat -> ExpertFault)
    requires plan.layer > 0 && n <= m <= |plan.canonical| && !PlanRun(plan, n, r, measured, faults).0.NoFailure?
    ensures PlanRun(plan, m, r, measured, faults) == PlanRun(plan, n, r, measured, faults)
  {
    if n < m {
      FailureStays(plan, n, m - 1, r, measured, faults);
    }
  }

  /** How a whole tile ends. */
  function TileRun(plan: Plan, r: Residency, measured: nat, faults: TileFaults): (Failure, Residency)
    requires plan.layer > 0
  {
    if !faults.setup.NoFailure? then (faults.setup, r) else
      var (failure, after) := PlanRun(plan, |plan.canonical|, r, measured, faults.experts);
      (if failure.NoFailure? then faults.reduce else failure, after)
  }

  predicate Faultless(fault: ExpertFault) {
    !fault.serve.budget && fault.serve.upload.Fine? && fault.launch.NoFailure?
  }

  /** A tile in which nothing goes wrong succeeds, whatever is resident. */
  lemma FaultlessTileSucceeds(plan: Plan, r: Residency, measured: nat, faults: TileFaults)
    requires plan.layer > 0 && faults.setup.NoFailure? && faults.reduce.NoFailure?
    requires forall n :: 0 <= n < |plan.canonical| ==> Faultless(faults.experts(n))
    ensures TileRun(plan, r, measured, faults).0.NoFailure?
  {
    FaultlessPlanSucceeds(plan, |plan.canonical|, r, measured, faults.experts);
  }

  lemma {:induction false} FaultlessPlanSucceeds(plan: Plan, n: nat, r: Residency, measured: nat,
                                                 faults: nat -> ExpertFault)
    requires plan.layer > 0 && n <= |plan.canonical| && forall k :: 0 <= k < n ==> Faultless(faults(k))
    ensures PlanRun(plan, n, r, measured, faults).0.NoFailure?
  {
    if n > 0 {
      FaultlessPlanSucceeds(plan, n - 1, r, measured, faults);
      assert Faultless(faults(n - 1));
    }
  }

  /** How running the first n routed experts of one row ends; an expert the caller does not hold fails too. */
  function RowRun<V, W>(row: Row<V, W>, ids: seq<nat>, n: nat, r: Residency, measured: nat, faults: nat -> ExpertFault)
    : (Failure, Residency)
    requires row.layer > 0 && n <= |row.experts|
  {
    if n == 0 then (NoFailure, r) else
      var (failure, after) := RowRun(row, ids, n - 1, r, measured, faults);
      if !failure.NoFailure? then (failure, after)
      else if row.experts[n - 1] !in ids then (DeviceError, after)
      else EdgeRun(Key(row.layer - 1, row.experts[n - 1]), after, measured, faults(n - 1))
  }

  function EdgeRun(key: Key, r: Residency, measured: nat, fault: ExpertFault): (Failure, Residency) {
    var (failure, after) := Serve(r, key, measured, fault.serve);
    (if failure.NoFailure? then fault.launch else failure, after)
  }

  /** A row on its own ends well. */
  predicate RowEnds<V, W>(row: Row<V, W>, ids: seq<nat>, r: Residency, measured: nat, faults: TileFaults)
    requires row.layer > 0 && |row.experts| == TOP_K
  {
    && faults.setup.NoFailure? && faults.reduce.NoFailure?
    && RowRun(row, ids, TOP_K, r, measured, faults.experts).0.NoFailure?
  }

  lemma {:induction false} RowFailureStays<V, W>(row: Row<V, W>, ids: seq<nat>, n: nat, m: nat, r: Residency,
                                                 measured: nat,
                                                 faults: nat -> ExpertFault)
    requires row.layer > 0 && n <= m <= |row.experts| && !RowRun(row, ids, n, r, measured, faults).0.NoFailure?
    ensures RowRun(row, ids, m, r, measured, faults) == RowRun(row, ids, n, r, measured, faults)
  {
    if n < m {
      RowFailureStays(row, ids, n, m - 1, r, measured, faults);
    }
  }

  // ---------------------------------------------------------------- bytes

  /** The tensor was uploaded from this expert's authoritative bytes. */
  ghost predicate Holds<Bytes>(source: map<nat, Bytes>, authority: (nat, nat) -> Bytes, tensor: nat, layer: nat,
                               expert: nat) {
    tensor in source && source[tensor] == authority(layer, expert)
  }

  /** Every resident expert is on a tensor uploaded from its own bytes. */
  ghost predicate Authentic<Bytes>(bindings: set<Binding>, source: map<nat, Bytes>, authority: (nat, nat) -> Bytes) {
    forall b :: b in bindings ==> Holds(source, authority, b.tensor, b.slot + 1, b.expert)
  }

  /** A live plan: canonical IDs ascend, and every pinned hit holds the bytes of a canonical expert. */
  ghost predicate PlanOk<Bytes>(plan: Plan, source: map<nat, Bytes>, authority: (nat, nat) -> Bytes) {
    && 1 <= plan.layer <= STRATA && Ascending(plan.canonical)
    && forall h :: h in plan.hits ==>
      h.expert in plan.canonical && Holds(source, authority, h.tensor, plan.layer, h.expert)
  }

  /** The caller's bytes are the authoritative ones of the experts it names. */
  ghost predicate Brings<Bytes>(layer: nat, ids: seq<nat>, bytes: seq<Bytes>, authority: (nat, nat) -> Bytes) {
    |ids| == |bytes| && forall i :: 0 <= i < |ids| ==> bytes[i] == authority(layer, ids[i])
  }

  /** The outputs of every position routed to one of these experts are the ones of the row alone. */
  ghost predicate Computed<Bytes, V, W>(ops: Ops<Bytes, V, W>, authority: (nat, nat) -> Bytes, rows: seq<Row<V, W>>,
                                        outputs: seq<V>, experts: seq<nat>)
    requires WellShaped(rows) && |outputs| == |rows| * TOP_K
  {
    forall f :: 0 <= f < |outputs| && RoutedAt(rows, f) in experts ==>
      outputs[f] == SlotOutput(ops, authority, rows[f / TOP_K], f % TOP_K)
  }

  /** Each position routed to one of these experts is listed once, and no other is. */
  ghost predicate WrittenOnce<V, W>(rows: seq<Row<V, W>>, writes: seq<nat>, experts: seq<nat>)
    requires WellShaped(rows)
  {
    forall f: nat :: multiset(writes)[f] == if f < |rows| * TOP_K && RoutedAt(rows, f) in experts then 1 else 0
  }

  lemma NothingRun<Bytes, V, W>(ops: Ops<Bytes, V, W>, authority: (nat, nat) -> Bytes, rows: seq<Row<V, W>>,
                                outputs: seq<V>)
    requires WellShaped(rows) && |outputs| == |rows| * TOP_K
    ensures Computed(ops, authority, rows, outputs, []) && WrittenOnce(rows, [], [])
  {
  }

  /** The listed positions received this expert's result on their rows, and the others are as before. */
  ghost predicate Overlaid<Bytes, V, W>(ops: Ops<Bytes, V, W>, bytes: Bytes, rows: seq<Row<V, W>>, routes: seq<nat>,
                                        before: seq<V>, after: seq<V>)
    requires |before| == |after| == |rows| * TOP_K
  {
    forall f :: 0 <= f < |after| ==>
      after[f] == if f in routes then ops.kernel(bytes, rows[f / TOP_K].input) else before[f]
  }

  /** One expert's batch adds its own positions to what was computed and written before. */
  lemma BatchAdvances<Bytes, V, W>(ops: Ops<Bytes, V, W>, authority: (nat, nat) -> Bytes, rows: seq<Row<V, W>>,
                                   layer: nat, before: seq<V>, after: seq<V>, writes: seq<nat>, routes: seq<nat>,
                                   experts: seq<nat>, expert: nat)
    requires WellShaped(rows) && |before| == |after| == |rows| * TOP_K
    requires forall i :: 0 <= i < |rows| ==> rows[i].layer == layer
    requires Computed(ops, authority, rows, before, experts) && WrittenOnce(rows, writes, experts) && expert !in experts
    requires GatheredUpTo(rows, expert, routes, |rows| * TOP_K)
    requires Overlaid(ops, authority(layer, expert), rows, routes, before, after)
    ensures Computed(ops, authority, rows, after, experts + [expert])
    ensures WrittenOnce(rows, writes + routes, experts + [expert])
  {
    forall f: nat
      ensures multiset(writes + routes)[f] ==
        if f < |rows| * TOP_K && RoutedAt(rows, f) in experts + [expert] then 1 else 0
    {
      BatchCounts(rows, expert, routes, f);
    }
  }

  ghost predicate PlansOk<Bytes>(plans: map<nat, Plan>, source: map<nat, Bytes>, authority: (nat, nat) -> Bytes) {
    forall id :: id in plans ==> PlanOk(plans[id], source, authority)
  }

  lemma AuthenticStays<Bytes>(bindings: set<Binding>, fewer: set<Binding>, before: map<nat, Bytes>,
                              after: map<nat, Bytes>, authority: (nat, nat) -> Bytes)
    requires Authentic(bindings, before, authority) && fewer <= bindings && Extends(before, after)
    ensures Authentic(fewer, after, authority)
  {
    forall b | b in fewer ensures Holds(after, authority, b.tensor, b.slot + 1, b.expert) {
      assert Holds(before, authority, b.tensor, b.slot + 1, b.expert);
    }
  }

  lemma PlansStay<Bytes>(plans: map<nat, Plan>, before: map<nat, Bytes>, after: map<nat, Bytes>,
                         authority: (nat, nat) -> Bytes)
    requires PlansOk(plans, before, authority) && Extends(before, after)
    ensures PlansOk(plans, after, authority)
  {
    forall id | id in plans ensures PlanOk(plans[id], after, authority) {
      assert PlanOk(plans[id], before, authority);
    }
  }

  lemma PlanHasLayer<Bytes>(plan: Plan, source: map<nat, Bytes>, authority: (nat, nat) -> Bytes)
    requires PlanOk(plan, source, authority)
    ensures plan.layer > 0
  {
  }

  lemma PlanStays<Bytes>(plan: Plan, before: map<nat, Bytes>, after: map<nat, Bytes>, authority: (nat, nat) -> Bytes)
    requires PlanOk(plan, before, authority) && Extends(before, after)
    ensures PlanOk(plan, after, authority)
  {
  }
}
