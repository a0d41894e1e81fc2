/**
 * The CUDA expert residency cache of native/provider_gate/provider_cuda_moe.cpp: stratified recency,
 * residency plans that pin hits before misses are admitted, staged uploads, expert-major execution of
 * a tile of routed rows, and bounded recovery from memory pressure.
 *
 * Device memory, launches and allocations may fail at any point where the source handles it.  What goes
 * wrong is an input, the fault of an operation, so contracts say exactly when an operation succeeds.
 * Kernels are the functions of `Ops`, about which nothing is assumed.
 * Use stamps are unbounded, so the source's initial victim stamp, the largest 64-bit value, is
 * written as "no victim yet".
 */
module ExpertCache {
  import opened ExpertLru
  import opened ExpertPlans
  import opened ExpertRows
  import opened ExpertStaging
  import opened ExpertStrata
  import opened Wrappers

  class Cache<Bytes(0), V(0), W> {
    const ops: Ops<Bytes, V, W>
    /** The one authoritative content of every expert of every layer. */
    const authority: (nat, nat) -> Bytes
    const policy: Policy
    const strata: Strata
    const staging: Staging<Bytes>
    var enabled: bool
    var terminal: bool
    var budgetReady: bool
    var capacity: nat
    var rebuildsRemaining: nat
    var plans: map<nat, Plan>

    ghost predicate Valid()
      reads this, strata, staging, staging.pinned
    {
      && staging.Valid() && strata.Valid()
      && Authentic(Bindings(strata.lru), staging.source, authority)
      && (if budgetReady then |strata.lru| <= capacity else strata.lru == [])
      && PlansOk(plans, staging.source, authority)
    }

    constructor (ops: Ops<Bytes, V, W>, authority: (nat, nat) -> Bytes, policy: Policy)
      ensures Valid() && fresh(strata) && fresh(staging) && fresh(staging.pinned) && plans == map[] && strata.lru == []
      ensures this.ops == ops && this.authority == authority && this.policy == policy
    {
      this.ops, this.authority, this.policy := ops, authority, policy;
      strata := new Strata();
      staging := new Staging();
      enabled, terminal, budgetReady, capacity, rebuildsRemaining := false, false, false, 0, 2;
      plans := map[];
    }

    /** The outcome of the one-time capability probe. */
    method Qualify(passed: bool, drained: bool)
      requires Valid()
      modifies this`enabled, this`terminal, strata
      ensures Valid() && strata.lru == [] && enabled == passed && terminal == (!passed && !drained)
    {
      enabled, terminal := passed, !passed && !drained;
      strata.Clear();
    }

    method Poison(terminally: bool)
      requires Valid()
      modifies this`enabled, this`terminal, strata
      ensures Valid() && !enabled && terminal == (old(terminal) || terminally) && strata.lru == []
    {
      enabled := false;
      terminal := terminal || terminally;
      strata.Clear();
    }

    /** Drop everything and measure the budget anew, at most twice in the life of the cache. */
    method RebuildAfterMemoryPressure(emptied: bool) returns (rebuilt: bool)
      requires Valid()
      modifies this`enabled, this`terminal, this`rebuildsRemaining, this`budgetReady, strata
      ensures Valid() && strata.lru == [] && terminal == old(terminal)
      ensures rebuildsRemaining == if old(rebuildsRemaining) == 0 then 0 else old(rebuildsRemaining) - 1
      ensures rebuilt <==> old(rebuildsRemaining) > 0 && emptied
      ensures rebuilt ==> !budgetReady && enabled == old(enabled)
      ensures !rebuilt ==> !enabled
    {
      if rebuildsRemaining == 0 {
        Poison(false);
        return false;
      }
      rebuildsRemaining := rebuildsRemaining - 1;
      strata.Clear();
      budgetReady := false;
      if !emptied {
        Poison(false);
        return false;
      }
      return true;
    }

    /** The capacity that measuring this many free bytes fixes. */
    function Measured(free: nat): nat {
      ClampCapacity(free, ReserveBytes(policy.reserve, free), policy)
    }

    ghost function View(): Residency
      reads this, strata
    {
      Residency(Keys(strata.lru), budgetReady, capacity)
    }

    /** Fix the capacity once, from the free bytes the device reports. */
    method EstablishBudget(free: nat)
      requires Valid()
      modifies this`budgetReady, this`capacity
      ensures Valid() && budgetReady
      ensures capacity == if old(budgetReady) then old(capacity) else Measured(free)
    {
      if budgetReady { return; }
      capacity := Measured(free);
      budgetReady := true;
    }

    predicate Usable()
      reads this
    {
      enabled && !terminal
    }

    /** A miss: upload the caller's bytes, and make the expert the most recent resident if there is room at all. */
    method Fetch(layer: nat, expert: nat, source: Bytes, fault: UploadFault) returns (failure: Failure, tensor: nat)
      requires Valid() && budgetReady && 1 <= layer <= STRATA && source == authority(layer, expert)
      requires Key(layer - 1, expert) !in Keys(strata.lru)
      modifies strata, staging, staging.pinned
      ensures Valid() && Extends(old(staging.source), staging.source) && failure == UploadFailure(fault)
      ensures Keys(strata.lru) == if failure.NoFailure?
        then Touch(old(Keys(strata.lru)), capacity, Key(layer - 1, expert))
                                  else old(Keys(strata.lru))
      ensures failure.NoFailure? ==> Holds(staging.source, authority, tensor, layer, expert)
    {
      hide Tracks, Strata.Valid, Staging.Valid, PlansOk, Without, Bindings, Keys;
      ghost var before := staging.source;
      ghost var bindings := Bindings(strata.lru);
      var uploaded := staging.Upload(source, fault);
      PlansStay(plans, before, staging.source, authority);
      AuthenticStays(bindings, bindings, before, staging.source, authority);
      if uploaded.None? { return UploadFailure(fault), 0; }
      if capacity != 0 {
        strata.MakeRoom(capacity);
        AuthenticStays(bindings, Bindings(strata.lru), before, staging.source, authority);
        strata.Admit(layer - 1, expert, uploaded.value);
      }
      return NoFailure, uploaded.value;
    }

    /**
     * Serve one expert: from the cache, or by uploading the caller's bytes.  On the single list this
     * is one request to a least-recently-used list of `capacity` entries, unless the upload fails.
     */
    method Resident(layer: nat, expert: nat, source: Bytes, free: nat, fault: ServeFault)
      returns (failure: Failure, tensor: nat, hit: bool)
      requires Valid() && 1 <= layer <= STRATA && source == authority(layer, expert)
      modifies this`budgetReady, this`capacity, strata, staging, staging.pinned
      ensures Valid() && Extends(old(staging.source), staging.source)
      ensures (failure, View()) == Serve(old(View()), Key(layer - 1, expert), Measured(free), fault)
      ensures failure.NoFailure? ==> Holds(staging.source, authority, tensor, layer, expert)
      ensures failure.NoFailure? ==> (hit <==> Key(layer - 1, expert) in old(Keys(strata.lru)))
    {
      hide Tracks, Strata.Valid, Staging.Valid, PlansOk, Without, Bindings, Keys, Measured, Holds;
      if !budgetReady && fault.budget { return DeviceError, 0, false; }
      EstablishBudget(free);
      var found := strata.Hit(layer - 1, expert);
      if found.Found? {
        assert Authentic(Bindings(strata.lru), staging.source, authority);
        return NoFailure, found.tensor, true;
      }
      hit := false;
      failure, tensor := Fetch(layer, expert, source, fault.upload);
    }

    /** The request of a trace that comes after these cannot be served. */
    ghost predicate Fails(trace: seq<Key>, k: nat, ready: bool, limit: nat, fault: ServeFault)
      requires k < |trace|
    {
      (k == 0 && !ready && fault.budget) || (trace[k] !in TouchAll(limit, trace[..k]) && !fault.upload.Fine?)
    }

    /**
     * A whole trace of requests, up to the first that cannot be served: the stratified cache hits
     * exactly where the single list of that capacity does, and holds the same experts in the same order.
     */
    method ServeTrace(trace: seq<Key>, free: nat, faults: nat -> ServeFault) returns (hits: seq<bool>)
      requires Valid() && strata.lru == []
      requires forall k :: 0 <= k < |trace| ==> trace[k].slot < STRATA
      modifies this`budgetReady, this`capacity, strata, staging, staging.pinned
      ensures Valid() && |hits| <= |trace|
      ensures hits == Hits(capacity, trace[..|hits|]) && Keys(strata.lru) == TouchAll(capacity, trace[..|hits|])
      ensures hits != [] ==> capacity == if old(budgetReady) then old(capacity) else Measured(free)
      ensures forall k :: 0 <= k < |hits| ==> !Fails(trace, k, old(budgetReady), capacity, faults(k))
      ensures |hits| < |trace| ==> Fails(trace, |hits|, old(budgetReady), capacity, faults(|hits|))
    {
      hide Tracks, Strata.Valid, Staging.Valid, PlansOk, Without, Touch, ClampCapacity, ReserveBytes;
      ghost var ready, limit := budgetReady, if budgetReady then capacity else Measured(free);
      hits := [];
      for n := 0 to |trace|
        invariant Valid() && |hits| == n
        invariant if n == 0 then budgetReady == ready && capacity == old(capacity) else budgetReady && capacity == limit
        invariant hits == Hits(capacity, trace[..n]) && Keys(strata.lru) == TouchAll(capacity, trace[..n])
        invariant forall k :: 0 <= k < n ==> !Fails(trace, k, ready, limit, faults(k))
      {
        TraceStep(limit, trace, n);
        var layer := trace[n].slot + 1;
        var failure, tensor, hit :=
          Resident(layer, trace[n].expert, authority(layer, trace[n].expert), free, faults(n));
        if !failure.NoFailure? { break; }
        hits := hits + [hit];
      }
    }

    /** Look every canonical ID up in order, before any miss is admitted, and keep the tensors found. */
    method PinHits(layer: nat, canonical: seq<nat>) returns (hits: seq<Hit>, missing: seq<nat>)
      requires Valid() && 1 <= layer <= STRATA && Ascending(canonical)
      modifies strata
      ensures Valid() && PlanOk(Plan(layer, canonical, hits), staging.source, authority)
      ensures missing == Missing(Plan(layer, canonical, hits))
      ensures forall e :: e in canonical ==> (e in HitIds(hits) <==> Key(layer - 1, e) in old(Keys(strata.lru)))
      ensures Keys(strata.lru) == PinAll(old(Keys(strata.lru)), layer - 1, canonical)
    {
      hide Tracks, Strata.Valid, Staging.Valid, PlansOk, Without, Bindings, Keys, Split, PinAll, HitIds, Outside;
      hits, missing := [], [];
      ghost var keys := Keys(strata.lru);
      assert canonical[..0] == [];
      NothingPinned(keys, layer - 1);
      for n := 0 to |canonical|
        invariant Valid() && Keys(strata.lru) == PinAll(keys, layer - 1, canonical[..n])
        invariant forall key :: key in Keys(strata.lru) <==> key in keys
        invariant forall h :: h in hits ==>
          h.expert in canonical[..n] && Holds(staging.source, authority, h.tensor, layer, h.expert)
        invariant Split(keys, layer - 1, canonical[..n], hits, missing)
      {
        var expert := canonical[n];
        assert canonical[..n + 1] == canonical[..n] + [expert];
        PinNext(keys, layer - 1, canonical[..n], expert);
        var found := strata.Hit(layer - 1, expert);
        SplitNext(keys, layer - 1, canonical[..n], expert, hits, missing, if found.Found? then found.tensor else 0);
        if found.Found? {
          assert Authentic(Bindings(strata.lru), staging.source, authority);
          hits := hits + [Hit(expert, found.tensor)];
        } else {
          missing := missing + [expert];
        }
      }
      assert canonical[..|canonical|] == canonical;
      SplitIs(keys, layer - 1, canonical, hits, missing);
    }

    /** A plan cannot be opened: its identifier is taken, or a fault comes into play. */
    predicate PlanFails(id: nat, fault: PlanFault)
      reads this
    {
      (fault.budget && !budgetReady) || id in plans || fault.host
    }

    /** Open a residency plan; the result lists the experts the caller must bring. */
    method PlanResidency(id: nat, layer: nat, canonical: seq<nat>, free: nat, fault: PlanFault)
      returns (out: Outcome<seq<nat>>)
      requires Valid()
      modifies this, strata
      ensures Valid() && !out.Recoverable?
      ensures out.InvalidArgument? <==> !CanonicalRequest(id, layer, canonical)
      ensures out.Unavailable? <==> CanonicalRequest(id, layer, canonical) && !old(Usable())
      ensures out.InvalidArgument? || out.Unavailable? ==> unchanged(this) && unchanged(strata)
      ensures out.Terminal? <==> CanonicalRequest(id, layer, canonical) && old(Usable() && PlanFails(id, fault))
      ensures out.Terminal? ==> terminal && !enabled && strata.lru == [] && plans == old(plans)
      ensures out.Done? ==> id in plans && plans == old(plans)[id := plans[id]] && out.value == Missing(plans[id])
      ensures out.Done? ==> plans[id].layer == layer && plans[id].canonical == canonical
      ensures out.Done? ==> Keys(strata.lru) == PinAll(old(Keys(strata.lru)), layer - 1, canonical)
      ensures out.Done? ==> forall e :: e in canonical ==>
        (e in HitIds(plans[id].hits) <==> Key(layer - 1, e) in old(Keys(strata.lru)))
    {
      hide Tracks, Strata.Valid, Staging.Valid, PlanOk, Without, Bindings, Keys;
      if id == 0 || canonical == [] || |canonical| > MAX_EXPERTS { return InvalidArgument; }
      var ok := IsCanonical(canonical);
      if !ok || layer < 1 || layer > STRATA { return InvalidArgument; }
      if !Usable() { return Unavailable; }
      if fault.budget && !budgetReady {
        Poison(true);
        return Terminal;
      }
      EstablishBudget(free);
      if id in plans {
        Poison(true);
        return Terminal;
      }
      var hits, missing := PinHits(layer, canonical);
      if fault.host {
        Poison(true);
        return Terminal;
      }
      plans := plans[id := Plan(layer, canonical, hits)];
      return Done(missing);
    }

    /** The tensor of a planned expert: the pinned hit, or the caller's bytes through the cache. */
    method PlannedResident(plan: Plan, expert: nat, missingIds: seq<nat>, missingBytes: seq<Bytes>, free: nat,
                           fault: ServeFault)
      returns (failure: Failure, tensor: nat)
      requires Valid() && PlanOk(plan, staging.source, authority) && expert in plan.canonical
      requires missingIds == Missing(plan) && Brings(plan.layer, missingIds, missingBytes, authority)
      modifies this`budgetReady, this`capacity, strata, staging, staging.pinned
      ensures Valid() && Extends(old(staging.source), staging.source)
      ensures failure.NoFailure? ==> Holds(staging.source, authority, tensor, plan.layer, expert)
      ensures expert in HitIds(plan.hits) ==> failure.NoFailure? && View() == old(View())
      ensures expert !in HitIds(plan.hits) ==>
        (failure, View()) == Serve(old(View()), Key(plan.layer - 1, expert), Measured(free), fault)
    {
      hide Tracks, Strata.Valid, Staging.Valid, PlansOk, Without, Bindings, Keys, Touch, Serve;
      var k := 0;
      while k < |plan.hits|
        invariant k <= |plan.hits|
        invariant forall j :: 0 <= j < k ==> plan.hits[j].expert != expert
      {
        if plan.hits[k].expert == expert {
          assert plan.hits[k] in plan.hits;
          return NoFailure, plan.hits[k].tensor;
        }
        k := k + 1;
      }
      assert expert !in HitIds(plan.hits);
      OutsideSplits(plan.canonical, HitIds(plan.hits));
      var source := SourceFor(missingIds, missingBytes, expert);
      var hit;
      failure, tensor, hit := Resident(plan.layer, expert, source.value, free, fault);
    }

    /** Run every position of one expert of a plan. */
    method RunExpert(plan: Plan, expert: nat, rows: seq<Row<V, W>>, missingIds: seq<nat>, missingBytes: seq<Bytes>,
                     free: nat, fault: ExpertFault, outputs: array<V>)
      returns (failure: Failure, ghost routes: seq<nat>)
      requires Valid() && PlanOk(plan, staging.source, authority) && expert in plan.canonical
      requires WellShaped(rows) && Accepts(plan, rows, missingIds, |missingBytes|)
      requires Brings(plan.layer, missingIds, missingBytes, authority)
      requires outputs.Length == |rows| * TOP_K && outputs != staging.pinned
      modifies this`budgetReady, this`capacity, strata, staging, staging.pinned, outputs
      ensures Valid() && Extends(old(staging.source), staging.source)
      ensures (failure, View()) == ExpertRun(plan, expert, old(View()), Measured(free), fault)
      ensures failure.NoFailure? ==> GatheredUpTo(rows, expert, routes, |rows| * TOP_K)
      ensures failure.NoFailure? ==>
        Overlaid(ops, authority(plan.layer, expert), rows, routes, old(outputs[..]), outputs[..])
    {
      hide Tracks, Strata.Valid, Staging.Valid, PlansOk, PlanOk, Bindings, Keys, Authentic, Serve, HitIds, Measured;
      var tokens, positions := Gather(rows, expert);
      routes := positions;
      assert IsRouted(rows, expert);
      assert tokens != [];    // so the test for a lost routed expert never fires
      var tensor;
      failure, tensor := PlannedResident(plan, expert, missingIds, missingBytes, free, fault.serve);
      if !failure.NoFailure? { return; }
      var bytes := staging.Read(tensor);
      if !fault.launch.NoFailure? {
        failure := fault.launch;
        return;
      }
      RunBatch(ops, bytes, rows, tokens, positions, outputs);
    }

    /** The next expert of a plan, and the positions written with it. */
    method RunNext(plan: Plan, n: nat, rows: seq<Row<V, W>>, missingIds: seq<nat>, missingBytes: seq<Bytes>, free: nat,
                   fault: ExpertFault, outputs: array<V>, ghost writes: seq<nat>)
      returns (failure: Failure, ghost after: seq<nat>)
      requires Valid() && PlanOk(plan, staging.source, authority) && n < |plan.canonical|
      requires WellShaped(rows) && Accepts(plan, rows, missingIds, |missingBytes|)
      requires Brings(plan.layer, missingIds, missingBytes, authority)
      requires outputs.Length == |rows| * TOP_K && outputs != staging.pinned
      requires Computed(ops, authority, rows, outputs[..], plan.canonical[..n])
      requires WrittenOnce(rows, writes, plan.canonical[..n])
      modifies this`budgetReady, this`capacity, strata, staging, staging.pinned, outputs
      ensures Valid() && PlanOk(plan, staging.source, authority)
      ensures (failure, View()) == ExpertRun(plan, plan.canonical[n], old(View()), Measured(free), fault)
      ensures failure.NoFailure? ==> Computed(ops, authority, rows, outputs[..], plan.canonical[..n + 1])
      ensures failure.NoFailure? ==> WrittenOnce(rows, after, plan.canonical[..n + 1])
    {
      assert Ascending(plan.canonical) && forall i :: 0 <= i < |rows| ==> rows[i].layer == plan.layer;
      hide *;
      var expert := plan.canonical[n];
      ghost var before, source := outputs[..], staging.source;
      ghost var routes;
      failure, routes := RunExpert(plan, expert, rows, missingIds, missingBytes, free, fault, outputs);
      PlanStays(plan, source, staging.source, authority);
      after := writes + routes;
      if failure.NoFailure? {
        BatchAdvances(ops, authority, rows, plan.layer, before, outputs[..], writes, routes, plan.canonical[..n],
                      expert);
        assert plan.canonical[..n + 1] == plan.canonical[..n] + [expert];
      }
    }

    /** The expert-major loop over the whole plan. */
    method RunExperts(plan: Plan, rows: seq<Row<V, W>>, missingIds: seq<nat>, missingBytes: seq<Bytes>, free: nat,
                      faults: nat -> ExpertFault) returns (failure: Failure, outputs: array<V>, ghost writes: seq<nat>)
      requires Valid() && PlanOk(plan, staging.source, authority)
      requires WellShaped(rows) && Accepts(plan, rows, missingIds, |missingBytes|)
      requires Brings(plan.layer, missingIds, missingBytes, authority)
      modifies this`budgetReady, this`capacity, strata, staging, staging.pinned
      ensures Valid() && fresh(outputs) && outputs.Length == |rows| * TOP_K
      ensures (failure, View()) == PlanRun(plan, |plan.canonical|, old(View()), Measured(free), faults)
      ensures failure.NoFailure? ==> Computed(ops, authority, rows, outputs[..], plan.canonical)
      ensures failure.NoFailure? ==> WrittenOnce(rows, writes, plan.canonical)
    {
      hide *;
      PlanHasLayer(plan, staging.source, authority);
      failure, writes := NoFailure, [];
      outputs := new V[|rows| * TOP_K];
      NothingRun(ops, authority, rows, outputs[..]);
      PlanRunNone(plan, old(View()), Measured(free), faults);
      for n := 0 to |plan.canonical|
        invariant Valid() && PlanOk(plan, staging.source, authority) && failure.NoFailure?
        invariant (failure, View()) == PlanRun(plan, n, old(View()), Measured(free), faults)
        invariant Computed(ops, authority, rows, outputs[..], plan.canonical[..n])
        invariant WrittenOnce(rows, writes, plan.canonical[..n])
      {
        PlanRunNext(plan, n, old(View()), Measured(free), faults);
        failure, writes := RunNext(plan, n, rows, missingIds, missingBytes, free, faults(n), outputs, writes);
        if !failure.NoFailure? {
          FailureStays(plan, n + 1, |plan.canonical|, old(View()), Measured(free), faults);
          return;
        }
      }
      assert plan.canonical[..|plan.canonical|] == plan.canonical;
    }

    /** All experts of a plan, then the reduction in route order. */
    method RunPlan(plan: Plan, rows: seq<Row<V, W>>, missingIds: seq<nat>, missingBytes: seq<Bytes>, free: nat,
                   faults: TileFaults)
      returns (failure: Failure, reduced: seq<V>, ghost writes: seq<nat>)
      requires Valid() && PlanOk(plan, staging.source, authority)
      requires WellShaped(rows) && Accepts(plan, rows, missingIds, |missingBytes|)
      requires Brings(plan.layer, missingIds, missingBytes, authority)
      modifies this`budgetReady, this`capacity, strata, staging, staging.pinned
      ensures Valid()
      ensures (failure, View()) == TileRun(plan, old(View()), Measured(free), faults)
      ensures failure.NoFailure? ==> |reduced| == |rows|
      ensures failure.NoFailure? ==> forall i :: 0 <= i < |rows| ==>
        reduced[i] == RowAlone(ops, authority, rows[i], TOP_K)
      ensures failure.NoFailure? ==> forall f: nat :: multiset(writes)[f] == if f < |rows| * TOP_K then 1 else 0
    {
      hide Tracks, Strata.Valid, Staging.Valid, PlansOk, PlanOk, RowAlone, Missing, Brings, Authentic, Bindings,
           PlanRun, Measured, Keys;
      reduced, writes := [], [];
      if !faults.setup.NoFailure? { return faults.setup, reduced, writes; }
      var outputs;
      failure, outputs, writes := RunExperts(plan, rows, missingIds, missingBytes, free, faults.experts);
      if !failure.NoFailure? { return; }
      if !faults.reduce.NoFailure? {
        failure := faults.reduce;
        return;
      }
      assert forall f :: 0 <= f < outputs.Length ==> outputs[..][f] == outputs[f];
      reduced := OrderedRouteReduce(ops, authority, rows, outputs);
    }

    /** A failure inside a tile: a drained allocation failure is survived, everything else is final. */
    method Recover(failure: Failure, drained: bool, emptied: bool) returns (recoverable: bool)
      requires Valid() && !failure.NoFailure?
      modifies this`enabled, this`terminal, this`rebuildsRemaining, this`budgetReady, strata
      ensures Valid() && strata.lru == []
      ensures recoverable <==> failure.OutOfMemory? && drained
      ensures recoverable ==> terminal == old(terminal)
      ensures recoverable ==> rebuildsRemaining == if old(rebuildsRemaining) == 0 then 0 else old(rebuildsRemaining) - 1
      ensures recoverable ==> (enabled <==> old(enabled) && old(rebuildsRemaining) > 0 && emptied)
      ensures !recoverable ==> terminal && !enabled
    {
      if failure.OutOfMemory? && drained {
        var _ := RebuildAfterMemoryPressure(emptied);
        return true;
      }
      Poison(true);
      return false;
    }

    /**
     * Execute a planned tile.  Whatever other plans, evictions and rebuilds happened since the plan
     * was made, an accepted tile succeeds exactly when no fault comes into play, gives every row the
     * output of that row alone, writing each routed position once, and closes the plan; a failed run
     * leaves it live.
     */
    method ExecutePositionsPlan(id: nat, rows: seq<Row<V, W>>, missingIds: seq<nat>, missingBytes: seq<Bytes>,
                                free: nat,
                                faults: TileFaults)
      returns (out: Outcome<seq<V>>, ghost writes: seq<nat>)
      requires Valid() && WellShaped(rows)
      requires id in plans && missingIds == Missing(plans[id]) && |missingBytes| == |missingIds| ==>
        Brings(plans[id].layer, missingIds, missingBytes, authority)
      modifies this, strata, staging, staging.pinned
      ensures Valid()
      ensures plans == if out.Done? then old(plans) - {id} else old(plans)
      ensures out.InvalidArgument? <==>
        id !in old(plans) || (old(Usable()) && !Accepts(old(plans)[id], rows, missingIds, |missingBytes|))
      ensures out.Unavailable? <==> id in old(plans) && !old(Usable())
      ensures out.InvalidArgument? || out.Unavailable? ==> unchanged(this) && unchanged(strata) && unchanged(staging)
      ensures out.Done? || out.Recoverable? || out.Terminal? ==>
        EndsAs(out, TileRun(old(plans)[id], old(View()), Measured(free), faults).0, faults.drained)
      ensures out.Done? ==> View() == TileRun(old(plans)[id], old(View()), Measured(free), faults).1
      ensures out.Done? ==> |out.value| == |rows|
      ensures out.Done? ==> forall i :: 0 <= i < |rows| ==> out.value[i] == RowAlone(ops, authority, rows[i], TOP_K)
      ensures out.Done? ==> forall i :: 0 <= i < |rows| ==> out.value[i] == RouteSum(ops, authority, rows[i])
      ensures out.Done? ==> forall f: nat :: multiset(writes)[f] == if f < |rows| * TOP_K then 1 else 0
      ensures out.Recoverable? ==> !terminal && strata.lru == []
      ensures out.Recoverable? ==> (enabled <==> old(rebuildsRemaining) > 0 && faults.emptied)
      ensures out.Recoverable? && enabled ==> rebuildsRemaining == old(rebuildsRemaining) - 1
      ensures out.Terminal? ==> terminal && !enabled && strata.lru == []
    {
      hide Tracks, Strata.Valid, Staging.Valid, Brings, Missing, RowAlone, RouteSum, TileRun, Measured, Keys;
      writes := [];
      if id !in plans { return InvalidArgument, writes; }
      if !Usable() { return Unavailable, writes; }
      var plan := plans[id];
      if !Accepts(plan, rows, missingIds, |missingBytes|) { return InvalidArgument, writes; }
      var failure, reduced, positions := RunPlan(plan, rows, missingIds, missingBytes, free, faults);
      if !failure.NoFailure? {
        var recoverable := Recover(failure, faults.drained, faults.emptied);
        return if recoverable then Recoverable else Terminal, writes;
      }
      plans := plans - {id};
      forall i | 0 <= i < |rows| {
        RowAloneIsSum(ops, authority, rows[i]);
      }
      return Done(reduced), positions;
    }

    method CancelPlan(id: nat)
      requires Valid()
      modifies this`plans
      ensures Valid() && plans == old(plans) - {id}
    {
      plans := plans - {id};
    }

    /**
     * Copy a plan's pinned experts to the host.  They are the authoritative bytes of exactly the
     * canonical experts the caller does not hold, evicted since or not, and the plan stays live.
     */
    method MaterializePlan(id: nat, faults: nat -> bool) returns (out: Outcome<seq<(nat, Bytes)>>)
      requires Valid()
      modifies this`enabled, this`terminal, strata, staging
      ensures Valid() && (out.InvalidArgument? <==> id !in plans)
        && (out.Done? || out.InvalidArgument? || out.Terminal?)
      ensures out.Terminal? <==> id in plans && exists k :: 0 <= k < |plans[id].hits| && faults(k)
      ensures out.Terminal? ==> terminal && !enabled
      ensures out.Done? ==> |out.value| == |plans[id].hits| && unchanged(strata)
      ensures out.Done? ==> forall k :: 0 <= k < |out.value| ==> out.value[k].0 == plans[id].hits[k].expert
      ensures out.Done? ==> forall k :: 0 <= k < |out.value| ==>
        out.value[k].1 == authority(plans[id].layer, out.value[k].0)
      ensures out.Done? ==> forall e :: e in plans[id].canonical <==>
        e in Missing(plans[id]) || e in HitIds(plans[id].hits)
      ensures out.Done? ==> forall e :: !(e in Missing(plans[id]) && e in HitIds(plans[id].hits))
    {
      hide Tracks, Strata.Valid, Staging.Valid;
      if id !in plans { return InvalidArgument; }
      var plan := plans[id];
      var host := [];
      for k := 0 to |plan.hits|
        invariant Valid() && unchanged(strata) && |host| == k && forall j :: 0 <= j < k ==> !faults(j)
        invariant forall j :: 0 <= j < k ==>
          host[j] == (plan.hits[j].expert, authority(plan.layer, plan.hits[j].expert))
      {
        assert Holds(staging.source, authority, plan.hits[k].tensor, plan.layer, plan.hits[k].expert);
        if faults(k) {
          Poison(true);
          return Terminal;
        }
        var bytes := staging.Read(plan.hits[k].tensor);
        host := host + [(plan.hits[k].expert, bytes)];
      }
      OutsideSplits(plan.canonical, HitIds(plan.hits));
      return Done(host);
    }

    /** One row on its own, expert by expert in route order, from the caller's full set of bytes. */
    method ExecuteT1(row: Row<V, W>, ids: seq<nat>, bytes: seq<Bytes>, free: nat, faults: TileFaults)
      returns (out: Outcome<V>)
      requires Valid() && |row.experts| == |row.weights| == TOP_K && 1 <= row.layer <= STRATA
      requires Ascending(ids) && Brings(row.layer, ids, bytes, authority)
      modifies this, strata, staging, staging.pinned
      ensures Valid() && plans == old(plans)
      ensures (out.Unavailable? <==> !old(Usable())) && (out.Done? || out.Unavailable? || out.Terminal?)
      ensures out.Done? <==> old(Usable()) && RowEnds(row, ids, old(View()), Measured(free), faults)
      ensures out.Done? ==> out.value == RowAlone(ops, authority, row, TOP_K) == RouteSum(ops, authority, row)
      ensures out.Terminal? ==> terminal && !enabled && strata.lru == []
    {
      hide Tracks, Strata.Valid, Staging.Valid, PlansOk, Authentic, RowAlone, RouteSum, Touch, Serve, Measured,
           Keys, EdgeRun;
      if !Usable() { return Unavailable; }
      if !faults.setup.NoFailure? {
        Poison(true);
        return Terminal;
      }
      var outputs := new V[TOP_K];
      for edge := 0 to TOP_K
        invariant Valid() && plans == old(plans)
        invariant (NoFailure, View()) == RowRun(row, ids, edge, old(View()), Measured(free), faults.experts)
        invariant forall e :: 0 <= e < edge ==>
          row.experts[e] in ids && outputs[e] == SlotOutput(ops, authority, row, e)
      {
        var failure;
        failure := RunEdge(row, edge, ids, bytes, free, faults.experts(edge), outputs);
        if !failure.NoFailure? {
          RowFailureStays(row, ids, edge + 1, TOP_K, old(View()), Measured(free), faults.experts);
          Poison(true);
          return Terminal;
        }
      }
      if !faults.reduce.NoFailure? {
        Poison(true);
        return Terminal;
      }
      var reduced := OrderedRouteReduce(ops, authority, [row], outputs);
      RowAloneIsSum(ops, authority, row);
      return Done(reduced[0]);
    }

    /** One routed expert of one row. */
    method RunEdge(row: Row<V, W>, edge: nat, ids: seq<nat>, bytes: seq<Bytes>, free: nat, fault: ExpertFault,
                   outputs: array<V>)
      returns (failure: Failure)
      requires Valid() && |row.experts| == |row.weights| == TOP_K && 1 <= row.layer <= STRATA
      requires edge < TOP_K == outputs.Length
      requires Ascending(ids) && Brings(row.layer, ids, bytes, authority) && outputs != staging.pinned
      modifies this`budgetReady, this`capacity, strata, staging, staging.pinned, outputs
      ensures Valid()
      ensures (failure, View()) == if row.experts[edge] !in ids then (DeviceError, old(View()))
                                   else EdgeRun(Key(row.layer - 1, row.experts[edge]), old(View()), Measured(free),
                                                fault)
      ensures failure.NoFailure? ==> outputs[edge] == SlotOutput(ops, authority, row, edge)
      ensures forall e :: 0 <= e < TOP_K && e != edge ==> outputs[e] == old(outputs[e])
    {
      hide Tracks, Strata.Valid, Staging.Valid, PlansOk, Authentic, Touch, Serve, Measured, Keys;
      var source := SourceFor(ids, bytes, row.experts[edge]);
      if source.None? { return DeviceError; }
      var tensor, hit;
      failure, tensor, hit := Resident(row.layer, row.experts[edge], source.value, free, fault.serve);
      if !failure.NoFailure? { return; }
      if !fault.launch.NoFailure? { return fault.launch; }
      var content := staging.Read(tensor);
      outputs[edge] := ops.kernel(content, row.input);
    }
  }
}
