/**
 * The mutex-based worker pool of native/provider_gate/provider_bf16_cpu.cpp as a transition system.  One
 * step is one section under the state mutex, one notification, or one output row; workers and the
 * caller may also wake for no reason.  The job fields are rewritten by every call, workers compute from
 * the copies they took under the mutex, and each call has an output buffer of its own.  Weights and
 * inputs are bit patterns, and the dot product the pool was built with is an uninterpreted term.
 */
module Bf16Pool {

  // ---------------------------------------------------------------- row ranges

  function Begin(rows: nat, count: nat, i: nat): nat
    requires count > 0
  {
    rows / count * i + if i < rows % count then i else rows % count
  }

  function End(rows: nat, count: nat, i: nat): nat
    requires count > 0
  {
    Begin(rows, count, i) + rows / count + if i < rows % count then 1 else 0
  }

  /** The ranges follow each other, cover all rows, and differ in size by at most one. */
  lemma RangesTile(rows: nat, count: nat, i: nat)
    requires count > 0
    ensures Begin(rows, count, 0) == 0 && Begin(rows, count, count) == rows
    ensures End(rows, count, i) == Begin(rows, count, i + 1)
    ensures rows / count <= End(rows, count, i) - Begin(rows, count, i) <= rows / count + 1
  {
    var q := rows / count;
    assert q * count + rows % count == rows;
    assert q * (i + 1) == q * i + q;
  }

  lemma RangeOrdered(rows: nat, count: nat, i: nat)
    requires count > 0
    ensures Begin(rows, count, i) <= End(rows, count, i)
  {
    RangesTile(rows, count, i);
    hide Begin, End;
  }

  lemma {:induction false} BeginGrows(rows: nat, count: nat, i: nat, j: nat)
    requires count > 0 && i <= j
    ensures Begin(rows, count, i) <= Begin(rows, count, j)
    decreases j - i
  {
    if i < j {
      BeginGrows(rows, count, i, j - 1);
      RangesTile(rows, count, j - 1);
    }
  }

  predicate Owns(rows: nat, count: nat, i: nat, r: nat)
    requires count > 0
  {
    Begin(rows, count, i) <= r < End(rows, count, i)
  }

  /** No row has two owners, */
  lemma OwnersDiffer(rows: nat, count: nat, i: nat, j: nat, r: nat)
    requires count > 0 && Owns(rows, count, i, r) && Owns(rows, count, j, r)
    ensures i == j
  {
    RangesTile(rows, count, i);
    RangesTile(rows, count, j);
    hide Begin, End;
    if i < j {
      BeginGrows(rows, count, i + 1, j);
    } else if j < i {
      BeginGrows(rows, count, j + 1, i);
    }
  }

  lemma {:induction false} OwnerBelow(rows: nat, count: nat, n: nat, r: nat) returns (i: nat)
    requires count > 0 && r < Begin(rows, count, n)
    ensures i < n && Owns(rows, count, i, r)
    decreases n
  {
    RangesTile(rows, count, 0);
    if n > 0 {
      RangesTile(rows, count, n - 1);
      hide Begin, End;
      if r >= Begin(rows, count, n - 1) {
        i := n - 1;
      } else {
        i := OwnerBelow(rows, count, n - 1, r);
      }
    }
  }

  /** and every row has one. */
  lemma EveryRowOwned(rows: nat, count: nat, r: nat) returns (i: nat)
    requires count > 0 && r < rows
    ensures i < count && Owns(rows, count, i, r)
  {
    RangesTile(rows, count, 0);
    i := OwnerBelow(rows, count, count, r);
  }

  lemma OwnedInBounds(rows: nat, count: nat, i: nat)
    requires count > 0 && i < count
    ensures End(rows, count, i) <= rows
  {
    RangesTile(rows, count, i);
    BeginGrows(rows, count, i + 1, count);
  }

  // ---------------------------------------------------------------- states

  /** What a call computes: a matrix of bfloat16 patterns, row after row, and a vector of float patterns. */
  datatype Job = Job(weights: seq<nat>, input: seq<nat>, rows: nat, columns: nat)

  /** The spans have the sizes of the shape. */
  predicate Validated(job: Job) {
    0 < job.rows && 0 < job.columns && |job.weights| == job.rows * job.columns && |job.input| == job.columns
  }

  const NO_JOB := Job([], [], 0, 0)

  /** What an output row holds: what was there before, or the dot product of these weights and this input. */
  datatype Value = Before | Dot(weights: seq<nat>, input: seq<nat>)

  /** The weights of a row, as the pointer arithmetic of the worker finds them. */
  function RowWeights(job: Job, r: nat): seq<nat> {
    if (r + 1) * job.columns <= |job.weights| then job.weights[r * job.columns..(r + 1) * job.columns] else []
  }

  function RowValue(job: Job, r: nat): Value { Dot(RowWeights(job, r), job.input) }

  /** Row r of a validated matrix lies within its weights. */
  lemma RowFits(job: Job, r: nat)
    requires Validated(job) && r < job.rows
    ensures 0 <= r * job.columns <= (r + 1) * job.columns == r * job.columns + job.columns <= |job.weights|
  {
    assert (r + 1) * job.columns <= job.rows * job.columns;
  }

  /** Of a validated job the worker finds exactly the weights of the row. */
  lemma RowOfMatrix(job: Job, r: nat, c: nat)
    requires Validated(job) && r < job.rows && c < job.columns
    ensures |RowWeights(job, r)| == |job.input| == job.columns
    ensures RowWeights(job, r)[c] == job.weights[r * job.columns + c]
  {
    RowFits(job, r);
    hide Validated;
  }

  /** An output row, and how often it was written. */
  datatype Cell = Cell(writes: nat, value: Value)

  datatype WorkerPc =
    | Check                              // evaluates the wait predicate under the mutex
    | Asleep
    | Work(job: Job, output: nat, row: nat, end: nat)
    | Report(ok: bool)
    | Exited

  datatype Worker = Worker(pc: WorkerPc, observed: nat)

  datatype CallerPc =
    | Idle
    | NotifyWork | CheckDone | SleepDone
    | NotifyStop | Join(next: nat) | Gone

  datatype State = State(generation: nat, active: nat, completed: nat, failed: bool, stop: bool,
                         job: Job, output: nat, caller: CallerPc, workers: seq<Worker>, finished: set<nat>,
                         jobs: seq<Job>, outputs: seq<seq<Cell>>, succeeded: seq<bool>)

  datatype Action =
    | Run(i: nat)                        // a step of worker i
    | Hostile(i: nat)                    // worker i finds its floating-point environment unusable
    | Lead                               // a step of the caller
    | Call(job: Job, requested: nat)     // the next projection asked for; zero workers asks for all of them
    | Destroy
    | WakeWorker(i: nat) | WakeCaller    // spurious wakeups

  function Initial(workers: nat): State {
    State(0, 0, 0, false, false, NO_JOB, 0, Idle, seq(workers, _ => Worker(Check, 0)), {}, [], [], [])
  }

  predicate InCall(c: CallerPc) { c.NotifyWork? || c.CheckDone? || c.SleepDone? }
  predicate Stopping(c: CallerPc) { c.NotifyStop? || c.Join? || c.Gone? }

  // ---------------------------------------------------------------- steps

  function At(s: State, i: nat, w: Worker): State
    requires i < |s.workers|
  {
    s.(workers := s.workers[i := w])
  }

  /** Every sleeping worker is made runnable. */
  function Woken(workers: seq<Worker>): (woken: seq<Worker>)
    ensures |woken| == |workers|
    ensures forall i :: 0 <= i < |workers| ==>
      woken[i] == if workers[i].pc.Asleep? then workers[i].(pc := Check) else workers[i]
  {
    seq(|workers|, i requires 0 <= i < |workers| =>
      if workers[i].pc.Asleep? then workers[i].(pc := Check) else workers[i])
  }

  /** The call whose job the pool holds. */
  function Current(s: State): nat { if s.outputs == [] then 0 else |s.outputs| - 1 }

  predicate RunEnabled(s: State, i: nat) {
    i < |s.workers| && !s.workers[i].pc.Asleep? && !s.workers[i].pc.Exited?
  }

  function RunStep(s: State, i: nat): State
    requires RunEnabled(s, i)
  {
    var w := s.workers[i];
    match w.pc
    case Check =>
      if s.stop then At(s, i, w.(pc := Exited))
      else if s.generation == w.observed then At(s, i, w.(pc := Asleep))
      else if i >= s.active then At(s, i, Worker(Check, s.generation))
      else At(s, i,
              Worker(Work(s.job, s.output, Begin(s.job.rows, s.active, i), End(s.job.rows, s.active, i)), s.generation))
    case Work(job, output, row, end) =>
      if row >= end then At(s, i, w.(pc := Report(true)))
      else At(Written(s, output, row, RowValue(job, row)), i, w.(pc := Work(job, output, row + 1, end)))
    case Report(ok) =>
      var t := At(s.(failed := s.failed || !ok, completed := s.completed + 1, finished := s.finished + {i}), i,
                  w.(pc := Check));
      if t.completed == t.active && t.caller.SleepDone? then t.(caller := CheckDone) else t
    case _ => s
  }

  function Written(s: State, output: nat, row: nat, value: Value): State {
    if output < |s.outputs| && row < |s.outputs[output]|
    then s.(outputs := s.outputs[output := Stored(s.outputs[output], row, value)]) else s
  }

  function Stored(rows: seq<Cell>, r: nat, value: Value): seq<Cell>
    requires r < |rows|
  {
    rows[r := Cell(rows[r].writes + 1, value)]
  }

  predicate LeadEnabled(s: State) {
    match s.caller
    case Idle => false
    case SleepDone => false
    case Join(k) => k >= |s.workers| || s.workers[k].pc.Exited?
    case Gone => false
    case _ => true
  }

  function LeadStep(s: State): State
    requires LeadEnabled(s)
  {
    match s.caller
    case NotifyWork => s.(workers := Woken(s.workers), caller := CheckDone)
    case CheckDone =>
      if s.completed == s.active then s.(caller := Idle, succeeded := s.succeeded + [!s.failed])
        else s.(caller := SleepDone)
    case NotifyStop => s.(workers := Woken(s.workers), caller := Join(0))
    case Join(k) => s.(caller := if k >= |s.workers| then Gone else Join(k + 1))
    case _ => s
  }

  function Active(s: State, requested: nat): nat { if requested == 0 then |s.workers| else requested }

  predicate Enabled(s: State, a: Action) {
    match a
    case Run(i) => RunEnabled(s, i)
    case Hostile(i) => i < |s.workers| && s.workers[i].pc.Work? && Fresh(s, i)
    case Lead => LeadEnabled(s)
    case Call(job, requested) => s.caller.Idle? && Validated(job) && 0 < Active(s, requested) <= |s.workers|
    case Destroy => s.caller.Idle?
    case WakeWorker(i) => i < |s.workers| && s.workers[i].pc.Asleep?
    case WakeCaller => s.caller.SleepDone?
  }

  /** The worker has its range and has written none of it yet. */
  predicate Fresh(s: State, i: nat)
    requires i < |s.workers| && s.workers[i].pc.Work?
  {
    s.active > 0 && s.workers[i].pc.row == Begin(s.job.rows, s.active, i)
  }

  function Apply(s: State, a: Action): State
    requires Enabled(s, a)
  {
    match a
    case Run(i) => RunStep(s, i)
    case Hostile(i) => At(s, i, s.workers[i].(pc := Report(false)))
    case Lead => LeadStep(s)
    case Call(job, requested) =>
      s.(generation := s.generation + 1, active := Active(s, requested), completed := 0, failed := false, job := job,
         output := |s.outputs|, caller := NotifyWork, finished := {}, jobs := s.jobs + [job],
         outputs := s.outputs + [seq(job.rows, _ => Cell(0, Before))])
    case Destroy => s.(stop := true, generation := s.generation + 1, caller := NotifyStop)
    case WakeWorker(i) => At(s, i, s.workers[i].(pc := Check))
    case WakeCaller => s.(caller := CheckDone)
  }

  /**
   * An idle pool takes every call whose buffers match its dimensions, with any number of workers up to
   * all of them, zero meaning all, and gives it to that many.
   */
  lemma CallIsTaken(s: State, job: Job, requested: nat)
    ensures Enabled(s, Call(job, requested)) <==>
      s.caller.Idle? && 0 < job.rows && 0 < job.columns && |job.weights| == job.rows * job.columns
        && |job.input| == job.columns && 0 < |s.workers| && requested <= |s.workers|
    ensures Enabled(s, Call(job, requested)) ==>
      var t := Apply(s, Call(job, requested));
      && t.active == (if requested == 0 then |s.workers| else requested) && t.job == job && t.workers == s.workers
      && t.outputs == s.outputs + [seq(job.rows, _ => Cell(0, Before))] && t.succeeded == s.succeeded
  {
  }

  ghost predicate IsRun(states: seq<State>, actions: seq<Action>) {
    && |states| == |actions| + 1
    && forall k :: 0 <= k < |actions| ==> Follows(states[k], actions[k], states[k + 1])
  }

  ghost predicate Follows(s: State, a: Action, t: State) {
    Enabled(s, a) && t == Apply(s, a)
  }

  // ---------------------------------------------------------------- the invariant

  predicate CallOk(s: State) {
    && s.workers != []
    && |s.jobs| == |s.outputs| == |s.succeeded| + (if InCall(s.caller) then 1 else 0)
    && (s.stop <==> Stopping(s.caller))
    && (InCall(s.caller) ==>
         && 0 < s.active <= |s.workers| && |s.outputs[Current(s)]| == s.job.rows
         && s.output == Current(s) && s.jobs[Current(s)] == s.job
         && s.completed == |s.finished| && (forall i :: i in s.finished ==> i < s.active))
    && (s.caller.SleepDone? ==> s.completed < s.active)
  }

  predicate Busy(w: Worker) { w.pc.Work? || w.pc.Report? }

  /** Only active workers that have not finished this call hold its job, and no sleeper misses work. */
  predicate WorkerOk(s: State, i: nat)
    requires CallOk(s) && i < |s.workers|
  {
    var w := s.workers[i];
    && w.observed <= s.generation
    && (Busy(w) ==> InCall(s.caller) && i < s.active && w.observed == s.generation && i !in s.finished)
    && (w.pc.Work? ==>
      w.pc.job == s.job && w.pc.output == s.output && w.pc.end == End(s.job.rows, s.active, i)
        && Begin(s.job.rows, s.active, i) <= w.pc.row <= w.pc.end)
    && (InCall(s.caller) && i < s.active ==> (i in s.finished <==> w.observed == s.generation && !Busy(w)))
    && (!InCall(s.caller) && !s.stop && i < s.active ==> w.observed == s.generation)
    && (w.pc.Asleep? && (InCall(s.caller) || Stopping(s.caller)) && !s.caller.NotifyWork? && !s.caller.NotifyStop? ==>
      !s.stop && w.observed == s.generation)
    && (w.pc.Exited? ==> s.stop)
    && (s.caller.Join? && i < s.caller.next ==> w.pc.Exited?)
  }

  /** Written once, from this job. */
  function Computed(job: Job, r: nat): Cell { Cell(1, RowValue(job, r)) }

  /** What has been written of a row by its owner. */
  predicate RowOk(s: State, i: nat, r: nat)
    requires CallOk(s) && InCall(s.caller) && i < s.active && r < s.job.rows
  {
    var w, cell := s.workers[i], s.outputs[Current(s)][r];
    if w.observed != s.generation then cell.writes == 0
    else match w.pc
         case Work(_, _, row, _) => if r < row then cell == Computed(s.job, r) else cell.writes == 0
         case Report(ok) => if ok then cell == Computed(s.job, r) else cell.writes == 0
         case _ => cell == Computed(s.job, r) || (cell.writes == 0 && s.failed)
  }

  /** A call that returned without an error wrote every row once, from its own job; no call writes a row twice. */
  predicate PastOk(s: State, c: nat, r: nat)
    requires c < |s.succeeded| <= |s.outputs| == |s.jobs| && r < |s.outputs[c]|
  {
    s.outputs[c][r].writes <= 1 && (s.succeeded[c] ==> s.outputs[c][r] == Computed(s.jobs[c], r))
  }

  /** The output of a call has a row for every row of its job. */
  predicate SizeOk(s: State, c: nat)
    requires c < |s.jobs| == |s.outputs|
  {
    |s.outputs[c]| == s.jobs[c].rows
  }

  ghost predicate Inv(s: State) {
    && CallOk(s)
    && (forall i :: 0 <= i < |s.workers| ==> WorkerOk(s, i))
    && (forall c :: 0 <= c < |s.outputs| ==> SizeOk(s, c))
    && (InCall(s.caller) ==>
      forall i, r :: 0 <= i < s.active && 0 <= r < s.job.rows && Owns(s.job.rows, s.active, i, r) ==> RowOk(s, i, r))
    && (forall c, r :: 0 <= c < |s.succeeded| && 0 <= r < |s.outputs[c]| ==> PastOk(s, c, r))
  }

  lemma InitialInv(workers: nat)
    requires workers > 0
    ensures Inv(Initial(workers))
  {
  }

  // ---------------------------------------------------------------- worker steps

  lemma AddFinished(finished: set<nat>, i: nat)
    requires i !in finished
    ensures |finished + {i}| == |finished| + 1
  {
  }

  /** Active indices are at most as many as there are, so the last one to finish completes the call. */
  lemma {:induction false} FinishedBounded(finished: set<nat>, n: nat)
    requires forall i :: i in finished ==> i < n
    ensures |finished| <= n
    ensures |finished| == n ==> forall i: nat :: i < n ==> i in finished
  {
    if n == 0 {
      assert finished == {};
    } else {
      var rest := finished - {n - 1};
      FinishedBounded(rest, n - 1);
      assert finished == if n - 1 in finished then rest + {n - 1} else rest;
    }
  }

  lemma RunCallOk(s: State, i: nat)
    requires CallOk(s) && RunEnabled(s, i) && WorkerOk(s, i)
    ensures CallOk(RunStep(s, i))
    ensures InCall(RunStep(s, i).caller) <==> InCall(s.caller)
    ensures Stopping(RunStep(s, i).caller) <==> Stopping(s.caller)
  {
    if s.workers[i].pc.Report? {
      AddFinished(s.finished, i);
      FinishedBounded(s.finished + {i}, s.active);
    }
  }

  /** A worker's step leaves the job as it is, and the caller but for a completion signal. */
  lemma RunFrame(s: State, i: nat)
    requires RunEnabled(s, i)
    ensures var t := RunStep(s, i);
      && Current(t) == Current(s) && t.job == s.job && t.output == s.output && t.jobs == s.jobs && t.active == s.active
        && t.generation == s.generation && t.stop == s.stop
      && |t.workers| == |s.workers| && t.succeeded == s.succeeded
      && (t.caller == s.caller || (s.caller.SleepDone? && t.caller.CheckDone?))
      && (forall v :: 0 <= v < |s.workers| && v != i ==>
        t.workers[v] == s.workers[v] && (v in t.finished <==> v in s.finished))
  {
  }

  lemma RunMover(s: State, i: nat)
    requires CallOk(s) && RunEnabled(s, i) && WorkerOk(s, i)
    ensures CallOk(RunStep(s, i)) && WorkerOk(RunStep(s, i), i)
  {
    RunCallOk(s, i);
    RunFrame(s, i);
    if s.workers[i].pc.Check? { CheckMover(s, i); } else { BusyMover(s, i); }
  }

  lemma CheckMover(s: State, i: nat)
    requires CallOk(s) && RunEnabled(s, i) && WorkerOk(s, i) && s.workers[i].pc.Check? && CallOk(RunStep(s, i))
    ensures WorkerOk(RunStep(s, i), i)
  {
    if s.active > 0 { RangeOrdered(s.job.rows, s.active, i); }
    hide CallOk, Begin, End, Written;
  }

  lemma BusyMover(s: State, i: nat)
    requires CallOk(s) && RunEnabled(s, i) && WorkerOk(s, i) && !s.workers[i].pc.Check? && CallOk(RunStep(s, i))
    ensures WorkerOk(RunStep(s, i), i)
  {
    RunFrame(s, i);
    hide CallOk, Begin, End, Written, Current;
  }

  lemma RunBystander(s: State, i: nat, v: nat)
    requires CallOk(s) && RunEnabled(s, i) && WorkerOk(s, i) && v < |s.workers| && WorkerOk(s, v) && v != i
    ensures CallOk(RunStep(s, i)) && WorkerOk(RunStep(s, i), v)
  {
    RunCallOk(s, i);
    RunFrame(s, i);
    hide CallOk, Begin, End, Written, Current, RunStep;
  }

  lemma RunWorkerOk(s: State, i: nat, v: nat)
    requires CallOk(s) && RunEnabled(s, i) && WorkerOk(s, i) && v < |s.workers| && WorkerOk(s, v)
    ensures CallOk(RunStep(s, i)) && WorkerOk(RunStep(s, i), v)
  {
    hide *;
    if v == i { RunMover(s, i); } else { RunBystander(s, i, v); }
  }

  /** A worker's step on the rows of its own range. */
  lemma RunOwnRow(s: State, i: nat, r: nat)
    requires CallOk(s) && RunEnabled(s, i) && WorkerOk(s, i) && InCall(s.caller) && i < s.active && r < s.job.rows
    requires Owns(s.job.rows, s.active, i, r) && RowOk(s, i, r)
    ensures CallOk(RunStep(s, i)) && InCall(RunStep(s, i).caller) && RowOk(RunStep(s, i), i, r)
  {
    RunCallOk(s, i);
    OwnedInBounds(s.job.rows, s.active, i);
    hide CallOk, Begin, End;
  }

  /** and on the rows of anybody else's. */
  lemma RunOtherRow(s: State, i: nat, v: nat, r: nat)
    requires CallOk(s) && RunEnabled(s, i) && WorkerOk(s, i) && InCall(s.caller) && v < s.active && v != i
    requires r < s.job.rows
    requires Owns(s.job.rows, s.active, v, r) && RowOk(s, v, r)
    ensures CallOk(RunStep(s, i)) && InCall(RunStep(s, i).caller) && RowOk(RunStep(s, i), v, r)
  {
    RunCallOk(s, i);
    RunFrame(s, i);
    OtherRowStays(s, i, v, r);
    FailureStays(s, i);
    assert CallOk(s) && |s.outputs[Current(s)]| == s.job.rows && CallOk(RunStep(s, i));
    hide RunStep, RunEnabled, CallOk, Begin, End, Owns, Current;
  }

  /** Nobody else writes an owned row. */
  lemma OtherRowStays(s: State, i: nat, v: nat, r: nat)
    requires CallOk(s) && RunEnabled(s, i) && WorkerOk(s, i) && InCall(s.caller) && v < s.active && v != i
    requires r < s.job.rows
    requires Owns(s.job.rows, s.active, v, r)
    ensures |RunStep(s, i).outputs| == |s.outputs| && |RunStep(s, i).outputs[Current(s)]| == s.job.rows
    ensures RunStep(s, i).outputs[Current(s)][r] == s.outputs[Current(s)][r]
  {
    var w := s.workers[i];
    if w.pc.Work? && w.pc.row == r && r < w.pc.end {
      OwnersDiffer(s.job.rows, s.active, i, v, r);
    }
    hide Begin, End, Owns;
  }

  lemma FailureStays(s: State, i: nat)
    requires RunEnabled(s, i)
    ensures s.failed ==> RunStep(s, i).failed
  {
  }

  lemma RunPast(s: State, i: nat, c: nat)
    requires CallOk(s) && RunEnabled(s, i) && WorkerOk(s, i) && c < |s.succeeded|
    ensures RunStep(s, i).succeeded == s.succeeded && |RunStep(s, i).outputs| == |s.outputs|
    ensures RunStep(s, i).jobs == s.jobs
    ensures RunStep(s, i).outputs[c] == s.outputs[c]
  {
    if s.workers[i].pc.Work? && s.workers[i].pc.row < s.workers[i].pc.end {
      OwnedInBounds(s.job.rows, s.active, i);
    }
  }

  lemma RunInv(s: State, i: nat)
    requires Inv(s) && RunEnabled(s, i)
    ensures Inv(RunStep(s, i))
  {
    SizesStay(s, Run(i));
    assert Apply(s, Run(i)) == RunStep(s, i);
    var t := RunStep(s, i);
    assert WorkerOk(s, i);
    RunCallOk(s, i);
    RunFrame(s, i);
    hide RunStep, CallOk, WorkerOk, RowOk, PastOk, SizeOk, InCall, RunEnabled, Owns;
    forall v | 0 <= v < |t.workers| ensures WorkerOk(t, v) {
      RunWorkerOk(s, i, v);
    }
    if InCall(t.caller) {
      forall v, r | 0 <= v < t.active && 0 <= r < t.job.rows && Owns(t.job.rows, t.active, v, r)
        ensures RowOk(t, v, r) {
        assert RowOk(s, v, r);
        if v == i { RunOwnRow(s, i, r); } else { RunOtherRow(s, i, v, r); }
      }
    }
    RunKeepsPast(s, i);
  }

  lemma RunKeepsPast(s: State, i: nat)
    requires Inv(s) && RunEnabled(s, i)
    ensures CallOk(RunStep(s, i))
    ensures forall c, r :: 0 <= c < |RunStep(s, i).succeeded| && 0 <= r < |RunStep(s, i).outputs[c]| ==>
      PastOk(RunStep(s, i), c, r)
  {
    assert WorkerOk(s, i);
    RunCallOk(s, i);
    var t := RunStep(s, i);
    forall c, r | 0 <= c < |t.succeeded| && 0 <= r < |t.outputs[c]| ensures PastOk(t, c, r) {
      RunPast(s, i, c);
      assert PastOk(s, c, r);
    }
  }

  // ---------------------------------------------------------------- the other steps

  /** No step changes the number of rows of an output. */
  lemma SizesStay(s: State, a: Action)
    requires CallOk(s) && Enabled(s, a) && forall c :: 0 <= c < |s.outputs| ==> SizeOk(s, c)
    ensures |Apply(s, a).jobs| == |Apply(s, a).outputs|
    ensures forall c :: 0 <= c < |Apply(s, a).outputs| ==> SizeOk(Apply(s, a), c)
  {
    var t := Apply(s, a);
    forall c | 0 <= c < |t.outputs| ensures SizeOk(t, c) {
      assert c < |s.outputs| ==> SizeOk(s, c);
    }
  }

  /** A worker whose environment is unusable reports that without writing its rows. */
  lemma HostileInv(s: State, i: nat)
    requires Inv(s) && Enabled(s, Hostile(i))
    ensures Inv(Apply(s, Hostile(i)))
  {
    SizesStay(s, Hostile(i));
    var t := Apply(s, Hostile(i));
    assert WorkerOk(s, i);
    forall v | 0 <= v < |t.workers| ensures WorkerOk(t, v) {
      assert WorkerOk(s, v);
    }
    forall v, r | 0 <= v < t.active && 0 <= r < t.job.rows && Owns(t.job.rows, t.active, v, r) ensures RowOk(t, v, r) {
      assert RowOk(s, v, r);
    }
    forall c, r | 0 <= c < |t.succeeded| && 0 <= r < |t.outputs[c]| ensures PastOk(t, c, r) {
      assert PastOk(s, c, r);
    }
  }

  /** Waking, on purpose or not, changes no row and no count. */
  lemma WakeInv(s: State, a: Action)
    requires Inv(s) && Enabled(s, a) && (a.WakeWorker? || a.WakeCaller?)
    ensures Inv(Apply(s, a))
  {
    SizesStay(s, a);
    var t := Apply(s, a);
    forall v | 0 <= v < |t.workers| ensures WorkerOk(t, v) {
      assert WorkerOk(s, v);
    }
    forall v, r | InCall(t.caller) && 0 <= v < t.active && 0 <= r < t.job.rows && Owns(t.job.rows, t.active, v, r)
      ensures RowOk(t, v, r) {
      assert RowOk(s, v, r);
    }
    forall c, r | 0 <= c < |t.succeeded| && 0 <= r < |t.outputs[c]| ensures PastOk(t, c, r) {
      assert PastOk(s, c, r);
    }
  }

  /** A new call begins with nobody on its job. */
  lemma CallInv(s: State, job: Job, requested: nat)
    requires Inv(s) && Enabled(s, Call(job, requested))
    ensures Inv(Apply(s, Call(job, requested)))
  {
    SizesStay(s, Call(job, requested));
    var t := Apply(s, Call(job, requested));
    forall v | 0 <= v < |t.workers| ensures WorkerOk(t, v) {
      assert WorkerOk(s, v);
    }
    forall v, r | 0 <= v < t.active && 0 <= r < t.job.rows ensures RowOk(t, v, r) {
      assert WorkerOk(s, v);
    }
    forall c, r | 0 <= c < |t.succeeded| && 0 <= r < |t.outputs[c]| ensures PastOk(t, c, r) {
      assert PastOk(s, c, r);
    }
  }

  lemma DestroyInv(s: State)
    requires Inv(s) && Enabled(s, Destroy)
    ensures Inv(Apply(s, Destroy))
  {
    SizesStay(s, Destroy);
    var t := Apply(s, Destroy);
    forall v | 0 <= v < |t.workers| ensures WorkerOk(t, v) {
      assert WorkerOk(s, v);
    }
    forall c, r | 0 <= c < |t.succeeded| && 0 <= r < |t.outputs[c]| ensures PastOk(t, c, r) {
      assert PastOk(s, c, r);
    }
  }

  /** When every active worker has reported, every row is written once unless a worker failed. */
  lemma CompletedRows(s: State, r: nat)
    requires Inv(s) && InCall(s.caller) && s.completed == s.active && r < s.job.rows
    ensures s.outputs[Current(s)][r].writes <= 1 && (!s.failed ==> s.outputs[Current(s)][r] == Computed(s.job, r))
  {
    FinishedBounded(s.finished, s.active);
    var i := EveryRowOwned(s.job.rows, s.active, r);
    assert RowOk(s, i, r) && WorkerOk(s, i);
  }

  lemma ReturnInv(s: State)
    requires Inv(s) && s.caller.CheckDone? && s.completed == s.active
    ensures Inv(LeadStep(s))
  {
    SizesStay(s, Lead);
    var t := LeadStep(s);
    FinishedBounded(s.finished, s.active);
    forall v | 0 <= v < |t.workers| ensures WorkerOk(t, v) {
      assert WorkerOk(s, v);
    }
    forall c, r | 0 <= c < |t.succeeded| && 0 <= r < |t.outputs[c]| ensures PastOk(t, c, r) {
      if c < |s.succeeded| {
        assert PastOk(s, c, r);
      } else {
        CompletedRows(s, r);
      }
    }
  }

  lemma LeadInv(s: State)
    requires Inv(s) && LeadEnabled(s)
    ensures Inv(LeadStep(s))
  {
    hide RowValue, RowWeights, Computed, Begin, End, Owns;
    SizesStay(s, Lead);
    if s.caller.CheckDone? && s.completed == s.active {
      ReturnInv(s);
    } else {
      var t := LeadStep(s);
      if s.caller.CheckDone? { FinishedBounded(s.finished, s.active); }
      forall v | 0 <= v < |t.workers| ensures WorkerOk(t, v) {
        assert WorkerOk(s, v);
      }
      forall v, r | InCall(t.caller) && 0 <= v < t.active && 0 <= r < t.job.rows && Owns(t.job.rows, t.active, v, r)
        ensures RowOk(t, v, r) {
        assert RowOk(s, v, r);
      }
      forall c, r | 0 <= c < |t.succeeded| && 0 <= r < |t.outputs[c]| ensures PastOk(t, c, r) {
        assert PastOk(s, c, r);
      }
    }
  }

  lemma StepInv(s: State, a: Action)
    requires Inv(s) && Enabled(s, a)
    ensures Inv(Apply(s, a))
  {
    hide Inv;
    match a
    case Run(i) => RunInv(s, i);
    case Hostile(i) => HostileInv(s, i);
    case Lead => LeadInv(s);
    case Call(job, requested) => CallInv(s, job, requested);
    case Destroy => DestroyInv(s);
    case _ => WakeInv(s, a);
  }

  lemma {:induction false} ReachableInv(states: seq<State>, actions: seq<Action>, workers: nat)
    requires IsRun(states, actions) && workers > 0 && states[0] == Initial(workers)
    ensures Inv(states[|actions|])
  {
    var n := |actions|;
    if n == 0 {
      InitialInv(workers);
    } else {
      assert forall k :: 0 <= k < n - 1 ==> Follows(states[k], actions[k], states[k + 1]);
      ReachableInv(states[..n], actions[..n - 1], workers);
      assert Follows(states[n - 1], actions[n - 1], states[n]);
      StepInv(states[n - 1], actions[n - 1]);
    }
  }

  // ---------------------------------------------------------------- the theorems

  /** The jobs of the calls made in a run, in order. */
  function Asked(actions: seq<Action>): seq<Job> {
    if actions == [] then [] else
      Asked(actions[..|actions| - 1]) + match actions[|actions| - 1] case Call(job, _) => [job] case _ => []
  }

  lemma {:induction false} JobsAreAsked(states: seq<State>, actions: seq<Action>, workers: nat)
    requires IsRun(states, actions) && states[0] == Initial(workers)
    ensures states[|actions|].jobs == Asked(actions)
  {
    hide Apply, Enabled;
    var n := |actions|;
    if n > 0 {
      assert forall k :: 0 <= k < n - 1 ==> Follows(states[k], actions[k], states[k + 1]);
      JobsAreAsked(states[..n], actions[..n - 1], workers);
      assert Follows(states[n - 1], actions[n - 1], states[n]);
      JobsGrow(states[n - 1], actions[n - 1]);
    }
  }

  lemma JobsGrow(s: State, a: Action)
    requires Enabled(s, a)
    ensures Apply(s, a).jobs == s.jobs + match a case Call(job, _) => [job] case _ => []
  {
  }

  /** Every job asked for was validated. */
  lemma {:induction false} AskedAreValidated(states: seq<State>, actions: seq<Action>, c: nat)
    requires IsRun(states, actions) && c < |Asked(actions)|
    ensures Validated(Asked(actions)[c])
  {
    hide Validated;
    var n := |actions|;
    if n > 0 {
      assert forall k :: 0 <= k < n - 1 ==> Follows(states[k], actions[k], states[k + 1]);
      assert Follows(states[n - 1], actions[n - 1], states[n]);
      if c < |Asked(actions[..n - 1])| {
        AskedAreValidated(states[..n], actions[..n - 1], c);
      }
    }
  }

  /**
   * For every number of workers, every sequence of calls with any active counts and every schedule: a
   * call that has returned without an error has written every row r of its output exactly once, and the
   * row holds the dot product of the columns weights from r * columns on and the input, of that call.
   */
  lemma ReturnedCallsAreComplete(states: seq<State>, actions: seq<Action>, workers: nat, c: nat, r: nat)
    requires IsRun(states, actions) && workers > 0 && states[0] == Initial(workers)
    requires c < |states[|actions|].succeeded| && states[|actions|].succeeded[c]
    ensures c < |Asked(actions)| == |states[|actions|].outputs| && Validated(Asked(actions)[c])
    ensures |states[|actions|].outputs[c]| == Asked(actions)[c].rows
    ensures var job := Asked(actions)[c];
      r < job.rows ==>
        && 0 <= r * job.columns <= (r + 1) * job.columns <= |job.weights|
        && states[|actions|].outputs[c][r]
          == Cell(1, Dot(job.weights[r * job.columns..(r + 1) * job.columns], job.input))
  {
    var s := states[|actions|];
    ReachableInv(states, actions, workers);
    JobsAreAsked(states, actions, workers);
    AskedAreValidated(states, actions, c);
    assert SizeOk(s, c);
    if r < Asked(actions)[c].rows {
      RowFits(Asked(actions)[c], r);
      assert PastOk(s, c, r);
    }
  }

  /** Late and inactive workers never write: only an active worker, in its range, in the call in progress. */
  lemma WritersAreActive(states: seq<State>, actions: seq<Action>, workers: nat, a: Action, c: nat, r: nat)
    requires IsRun(states, actions) && workers > 0 && states[0] == Initial(workers) && Enabled(states[|actions|], a)
    requires c < |states[|actions|].outputs| && r < |states[|actions|].outputs[c]|
    requires var t := Apply(states[|actions|], a);
      c < |t.outputs| && r < |t.outputs[c]| && t.outputs[c][r] != states[|actions|].outputs[c][r]
    ensures var s := states[|actions|];
      a.Run? && InCall(s.caller) && c == Current(s) && a.i < s.active && Owns(s.job.rows, s.active, a.i, r)
    ensures states[|actions|].outputs[c][r].writes == 0
  {
    var s := states[|actions|];
    ReachableInv(states, actions, workers);
    assert a.Run? ==> WorkerOk(s, a.i);
    OwnedInBounds(s.job.rows, s.active, a.i);
    assert RowOk(s, a.i, r);
  }

  lemma CanMove(s: State) returns (a: Action)
    requires Inv(s) && !s.caller.Idle? && !s.caller.Gone?
    ensures Enabled(s, a) && (a.Run? || a.Lead?)
  {
    a := Lead;
    if s.caller.SleepDone? {
      FinishedBounded(s.finished, s.active);
      var i := Unfinished(s.finished, s.active);
      assert WorkerOk(s, i);
      a := Run(i);
    } else if s.caller.Join? && s.caller.next < |s.workers| && !s.workers[s.caller.next].pc.Exited? {
      assert WorkerOk(s, s.caller.next);
      a := Run(s.caller.next);
    }
  }

  /** No wakeup is lost: while a call or the destructor is in progress somebody can move without waiting. */
  lemma NoDeadlock(states: seq<State>, actions: seq<Action>, workers: nat) returns (a: Action)
    requires IsRun(states, actions) && workers > 0 && states[0] == Initial(workers)
    requires !states[|actions|].caller.Idle? && !states[|actions|].caller.Gone?
    ensures Enabled(states[|actions|], a) && (a.Run? || a.Lead?)
  {
    ReachableInv(states, actions, workers);
    a := CanMove(states[|actions|]);
  }

  lemma {:induction false} Unfinished(finished: set<nat>, n: nat) returns (i: nat)
    requires |finished| < n && forall k :: k in finished ==> k < n
    ensures i < n && i !in finished
    decreases n
  {
    if n - 1 !in finished {
      i := n - 1;
    } else {
      i := Unfinished(finished - {n - 1}, n - 1);
    }
  }

  /** When the destructor has joined its workers all of them have exited. */
  lemma DestructorJoinsAll(states: seq<State>, actions: seq<Action>, workers: nat, i: nat)
    requires IsRun(states, actions) && workers > 0 && states[0] == Initial(workers)
    requires states[|actions|].caller.Join? && states[|actions|].caller.next >= |states[|actions|].workers|
    requires i < |states[|actions|].workers|
    ensures states[|actions|].workers[i].pc.Exited?
  {
    ReachableInv(states, actions, workers);
    assert WorkerOk(states[|actions|], i);
  }
}
