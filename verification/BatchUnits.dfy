/**
 * How tools/fused_gemv_batch.c cuts a batch of matrices into work units, and what the pool's
 * exactly-once guarantee means for rows.  Row counts are unbounded naturals.
 */
module BatchUnits {
  import GemvPool
  import GemvPoolInvariant
  import GemvPoolSafety

  const CHUNK: nat := 32
  const MAX_MATS: nat := 256

  function UnitsOf(rows: nat): nat { (rows + CHUNK - 1) / CHUNK }

  /** The first unit of matrix m: the units of all matrices before it. */
  function FirstUnit(rows: seq<nat>, m: nat): nat
    requires m <= |rows|
  {
    if m == 0 then 0 else FirstUnit(rows, m - 1) + UnitsOf(rows[m - 1])
  }

  lemma {:induction false} FirstUnitMonotone(rows: seq<nat>, a: nat, b: nat)
    requires a <= b <= |rows|
    ensures FirstUnit(rows, a) <= FirstUnit(rows, b)
  {
    if a < b { FirstUnitMonotone(rows, a, b - 1); }
  }

  /** Unit u computes row r of matrix m. */
  predicate Computes(rows: seq<nat>, u: nat, m: nat, r: nat)
    requires m < |rows|
  {
    && FirstUnit(rows, m) <= u < FirstUnit(rows, m + 1)
    && CHUNK * (u - FirstUnit(rows, m)) <= r < CHUNK * (u - FirstUnit(rows, m)) + CHUNK
    && r < rows[m]
  }

  /** The loop of `k3_gemv_batch_impl` that fills `g_job.cum` and counts the units. */
  method FillCumulative(rows: seq<nat>, cum: array<int>) returns (n: nat, units: nat)
    requires cum.Length == MAX_MATS + 1
    modifies cum
    ensures n == if |rows| > MAX_MATS then MAX_MATS else |rows|
    ensures forall m :: 0 <= m <= n ==> cum[m] == FirstUnit(rows, m)
    ensures forall m :: n < m < cum.Length ==> cum[m] == old(cum[m])
    ensures units == FirstUnit(rows, n)
  {
    n := |rows|;
    if n > MAX_MATS { n := MAX_MATS; }
    var c: nat := 0;
    var m := 0;
    while m < n
      invariant 0 <= m <= n
      invariant c == FirstUnit(rows, m)
      invariant forall k :: 0 <= k < m ==> cum[k] == FirstUnit(rows, k)
      invariant forall k :: n < k < cum.Length ==> cum[k] == old(cum[k])
    {
      cum[m] := c;
      c := c + (rows[m] + CHUNK - 1) / CHUNK;
      m := m + 1;
    }
    cum[n] := c;
    units := c;
  }

  /** The binary search of `k3_unit_gemv`; matrices without rows are allowed. */
  method LocateUnit(rows: seq<nat>, cum: array<int>, u: nat) returns (m: nat, r0: nat, r1: nat)
    requires 0 < |rows| < cum.Length
    requires forall k :: 0 <= k <= |rows| ==> cum[k] == FirstUnit(rows, k)
    requires u < FirstUnit(rows, |rows|)
    ensures m < |rows| && FirstUnit(rows, m) <= u < FirstUnit(rows, m + 1)
    ensures r0 < r1 <= rows[m]
    ensures forall k, r :: 0 <= k < |rows| && 0 <= r ==> (Computes(rows, u, k, r) <==> k == m && r0 <= r < r1)
  {
    var lo, hi := 0, |rows| - 1;
    while lo < hi
      invariant 0 <= lo <= hi < |rows|
      invariant FirstUnit(rows, lo) <= u < FirstUnit(rows, hi + 1)
    {
      var mid := (lo + hi) / 2;
      if cum[mid + 1] <= u { lo := mid + 1; } else { hi := mid; }
    }
    var a := (u - cum[lo]) * CHUNK;
    var b := a + CHUNK;
    if b > rows[lo] { b := rows[lo]; }
    m, r0, r1 := lo, a, b;
    forall k, r | 0 <= k < |rows| && 0 <= r
      ensures Computes(rows, u, k, r) <==> k == m && r0 <= r < r1
    {
      if k < m { FirstUnitMonotone(rows, k + 1, m); }
      if m < k { FirstUnitMonotone(rows, m + 1, k); }
    }
  }

  /** Every row of every matrix is computed by one unit and no other. */
  lemma RowHasOneUnit(rows: seq<nat>, m: nat, r: nat) returns (u: nat)
    requires m < |rows| && r < rows[m]
    ensures u < FirstUnit(rows, |rows|) && Computes(rows, u, m, r)
    ensures forall v: nat :: Computes(rows, v, m, r) ==> v == u
  {
    u := FirstUnit(rows, m) + r / CHUNK;
    FirstUnitMonotone(rows, m + 1, |rows|);
  }

  /** How often row r of matrix m has been computed, given how often each unit was. */
  function RowRuns(rows: seq<nat>, runs: seq<nat>, m: nat, r: nat): nat
    requires m < |rows|
  {
    if runs == [] then 0 else
      var last := |runs| - 1;
      RowRuns(rows, runs[..last], m, r) + if Computes(rows, last, m, r) then runs[last] else 0
  }

  lemma {:induction false} RowRunsOfItsUnit(rows: seq<nat>, runs: seq<nat>, m: nat, r: nat, u: nat)
    requires m < |rows| && Computes(rows, u, m, r)
    requires forall v: nat :: Computes(rows, v, m, r) ==> v == u
    ensures RowRuns(rows, runs, m, r) == if u < |runs| then runs[u] else 0
  {
    if runs != [] {
      RowRunsOfItsUnit(rows, runs[..|runs| - 1], m, r, u);
    }
  }

  /**
   * Whenever a dispatch of a batch returns, under any interleaving of any number of workers and
   * after any earlier operations, every row of every matrix has been computed exactly once.
   */
  lemma EveryRowOnce(rows: seq<nat>, states: seq<GemvPool.State>, actions: seq<GemvPool.Action>, k: nat, m: nat, r: nat)
    requires GemvPool.IsRun(states, actions) && k < |actions|
    requires GemvPoolInvariant.InDispatch(states[k].caller) && states[k + 1].caller.Idle?
    requires states[k + 1].units == FirstUnit(rows, |rows|)
    requires m < |rows| && r < rows[m]
    ensures RowRuns(rows, states[k + 1].runs, m, r) == 1
  {
    GemvPoolSafety.DispatchIsExact(states, actions, k);
    var u := RowHasOneUnit(rows, m, r);
    RowRunsOfItsUnit(rows, states[k + 1].runs, m, r, u);
  }

  // ---------------------------------------------------------------- the order in which a dispatch runs its units

  /** The unit whose rows an instruction of the pool computes, if any. */
  function UnitOf(s: GemvPool.State, a: GemvPool.Action): seq<nat> {
    match a
    case Work(i) => if i < |s.workers| && s.workers[i].pc.Run? then [s.workers[i].pc.unit] else []
    case Lead => if s.caller.InlineRun? then [s.caller.unit] else []
    case _ => []
  }

  /** The units computed in a stretch of a run, in the order of their instructions. */
  function Executed(states: seq<GemvPool.State>, actions: seq<GemvPool.Action>, from: nat, to: nat): seq<nat>
    requires from <= to <= |actions| <= |states|
  {
    if from == to then [] else Executed(states, actions, from, to - 1) + UnitOf(states[to - 1], actions[to - 1])
  }

  /** The run begins a dispatch of so many units with action `from` and has returned from it after action `to - 1`. */
  ghost predicate IsDispatch(states: seq<GemvPool.State>, actions: seq<GemvPool.Action>, from: nat, to: nat,
                             units: nat) {
    && GemvPool.IsRun(states, actions) && from < to <= |actions|
    && actions[from] == GemvPool.Ask(GemvPool.Dispatch(units)) && states[to].caller.Idle?
    && forall k :: from < k < to ==> GemvPoolInvariant.InDispatch(states[k].caller)
  }

  /** Every unit runs, in some order. */
  predicate Schedules(order: seq<nat>, units: nat) {
    && (forall k :: 0 <= k < |order| ==> order[k] < units)
    && forall u :: 0 <= u < units ==> u in order
  }

  function Occurrences(order: seq<nat>, u: nat): nat { multiset(order)[u] }

  /** Each unit occurs once. */
  ghost predicate Once(order: seq<nat>, units: nat) {
    forall u: nat :: Occurrences(order, u) == if u < units then 1 else 0
  }

  /** A state in which one instruction has computed these units. */
  predicate Computed(s: GemvPool.State, t: GemvPool.State, ran: seq<nat>, u: nat) {
    && t.units == s.units == |s.runs| == |t.runs|
    && (u < s.units ==> t.runs[u] == s.runs[u] + multiset(ran)[u])
    && (u in ran ==> u < s.units)
  }

  lemma WorkRuns(s: GemvPool.State, i: nat, u: nat)
    requires GemvPoolInvariant.Inv(s) && GemvPool.WorkerEnabled(s, i)
    ensures Computed(s, GemvPool.WorkerStep(s, i), UnitOf(s, GemvPool.Work(i)), u)
  {
    assert GemvPoolInvariant.MemberOk(s, i) && s.units == |s.runs|;
    hide GemvPoolInvariant.Inv;
  }

  lemma LeadRuns(s: GemvPool.State, u: nat)
    requires GemvPoolInvariant.Inv(s) && GemvPool.CallerEnabled(s) && GemvPoolInvariant.InDispatch(s.caller)
    ensures Computed(s, GemvPool.CallerStep(s), UnitOf(s, GemvPool.Lead), u)
  {
  }

  lemma StepRuns(s: GemvPool.State, a: GemvPool.Action, u: nat)
    requires GemvPoolInvariant.Inv(s) && GemvPool.Enabled(s, a) && GemvPoolInvariant.InDispatch(s.caller) && !a.Ask?
    ensures Computed(s, GemvPool.Apply(s, a), UnitOf(s, a), u)
  {
    assert s.units == |s.runs|;
    if a.Work? {
      WorkRuns(s, a.worker, u);
    } else if a.Lead? {
      LeadRuns(s, u);
    }
  }

  /** How often a unit has run is how often it occurs among the executed ones. */
  lemma {:induction false} ExecutedRuns(states: seq<GemvPool.State>, actions: seq<GemvPool.Action>, from: nat, n: nat,
                                        to: nat, units: nat, u: nat)
    requires IsDispatch(states, actions, from, to, units) && from < n <= to
    ensures states[n].units == units == |states[n].runs|
    ensures u < units ==> states[n].runs[u] == multiset(Executed(states, actions, from + 1, n))[u]
    ensures u in Executed(states, actions, from + 1, n) ==> u < units
  {
    hide GemvPool.Apply, GemvPool.Enabled, GemvPoolInvariant.Inv, UnitOf;
    if n == from + 1 {
      assert GemvPool.Follows(states[from], actions[from], states[n]);
      Begun(states[from], units);
    } else {
      ExecutedRuns(states, actions, from, n - 1, to, units, u);
      GemvPoolSafety.ReachableInv(states, actions, n - 1);
      assert GemvPool.Follows(states[n - 1], actions[n - 1], states[n]);
      NobodyAsks(states[n - 1], actions[n - 1]);
      StepRuns(states[n - 1], actions[n - 1], u);
    }
  }

  lemma Begun(s: GemvPool.State, units: nat)
    requires GemvPool.Enabled(s, GemvPool.Ask(GemvPool.Dispatch(units)))
    ensures var t := GemvPool.Apply(s, GemvPool.Ask(GemvPool.Dispatch(units)));
      t.units == units == |t.runs| && (forall u :: 0 <= u < units ==> t.runs[u] == 0) && (t.caller.Idle? ==> units == 0)
  {
  }

  lemma NobodyAsks(s: GemvPool.State, a: GemvPool.Action)
    requires GemvPool.Enabled(s, a) && GemvPoolInvariant.InDispatch(s.caller)
    ensures !a.Ask?
  {
  }

  /**
   * The order in which a dispatch computes its units, under any interleaving of any number of workers or
   * inline, is a schedule of all of them in which each occurs once.
   */
  lemma DispatchSchedules(states: seq<GemvPool.State>, actions: seq<GemvPool.Action>, from: nat, to: nat, units: nat)
    requires IsDispatch(states, actions, from, to, units)
    ensures Schedules(Executed(states, actions, from + 1, to), units)
    ensures Once(Executed(states, actions, from + 1, to), units)
  {
    var order := Executed(states, actions, from + 1, to);
    hide Executed, GemvPool.Apply, GemvPool.Enabled, GemvPoolInvariant.Inv;
    if to == from + 1 {
      assert GemvPool.Follows(states[from], actions[from], states[to]);
      Begun(states[from], units);
    } else {
      GemvPoolSafety.DispatchIsExact(states, actions, to - 1);
    }
    forall u: nat ensures Occurrences(order, u) == if u < units then 1 else 0 {
      ExecutedRuns(states, actions, from, to, to, units, u);
    }
    forall k | 0 <= k < |order| ensures order[k] < units {
      ExecutedRuns(states, actions, from, to, to, units, order[k]);
    }
    forall u | 0 <= u < units ensures u in order {
      assert Occurrences(order, u) == 1;
    }
  }
}
