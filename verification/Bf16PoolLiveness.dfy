/**
 * Termination of the operations of the bfloat16 pool: every step of a worker or of the caller lowers a
 * rank, and a spurious wakeup raises it by one.  With Bf16Pool.NoDeadlock, whatever was begun returns.
 */
module Bf16PoolLiveness {
  import opened Bf16Pool

  /** The rows of a worker's range. */
  function Share(s: State, i: nat): nat {
    if s.active == 0 || i >= s.active then 0 else
      RangeOrdered(s.job.rows, s.active, i);
      End(s.job.rows, s.active, i) - Begin(s.job.rows, s.active, i)
  }

  /** Steps left to a worker that is about to look at the pool. */
  function AwakeRank(s: State, i: nat, observed: nat): nat {
    if s.stop || observed == s.generation then 1
    else if i >= s.active then 2
    else Share(s, i) + 7
  }

  function WorkerRank(s: State, i: nat): nat
    requires i < |s.workers|
  {
    var w := s.workers[i];
    match w.pc
    case Check => AwakeRank(s, i, w.observed)
    case Asleep => AwakeRank(s, i, w.observed) - 1
    case Work(_, _, row, end) => (if row < end then end - row else 0) + 6
    case Report(_) => 5
    case Exited => 0
  }

  function CrewRank(s: State, n: nat): nat
    requires n <= |s.workers|
  {
    if n == 0 then 0 else CrewRank(s, n - 1) + WorkerRank(s, n - 1)
  }

  function CallerRank(c: CallerPc, crew: nat): nat {
    match c
    case Idle => 0
    case SleepDone => 1
    case CheckDone => 2
    case NotifyWork => 3 + crew
    case NotifyStop => 2 * crew + 2
    case Join(k) => 1 + if k <= crew then crew - k else 0
    case Gone => 0
  }

  function Rank(s: State): nat { CallerRank(s.caller, |s.workers|) + CrewRank(s, |s.workers|) }

  /** What the ranks of workers depend on besides the workers themselves. */
  predicate SameJob(s: State, t: State) {
    t.generation == s.generation && t.stop == s.stop && t.active == s.active && t.job == s.job
      && |t.workers| == |s.workers|
  }

  lemma {:induction false} CrewRankUpdate(s: State, t: State, i: nat, n: nat)
    requires SameJob(s, t) && i < |s.workers| && n <= |s.workers|
    requires forall k :: 0 <= k < |s.workers| && k != i ==> t.workers[k] == s.workers[k]
    ensures CrewRank(t, n) == CrewRank(s, n) + if i < n then WorkerRank(t, i) - WorkerRank(s, i) else 0
  {
    if n > 0 {
      CrewRankUpdate(s, t, i, n - 1);
      assert n - 1 != i ==> t.workers[n - 1] == s.workers[n - 1];
    }
  }

  lemma {:induction false} CrewRankWoken(s: State, t: State, n: nat)
    requires SameJob(s, t) && t.workers == Woken(s.workers) && n <= |s.workers|
    ensures CrewRank(t, n) <= CrewRank(s, n) + n
  {
    if n > 0 {
      CrewRankWoken(s, t, n - 1);
    }
  }

  lemma {:induction false} CrewRankSame(s: State, t: State, n: nat)
    requires SameJob(s, t) && t.workers == s.workers && n <= |s.workers|
    ensures CrewRank(t, n) == CrewRank(s, n)
  {
    if n > 0 {
      CrewRankSame(s, t, n - 1);
    }
  }

  /** A worker's step lowers its own rank by more than a completion signal raises the caller's. */
  lemma WorkerLowersRank(s: State, i: nat)
    requires Inv(s) && RunEnabled(s, i)
    ensures Rank(RunStep(s, i)) < Rank(s)
  {
    var t := RunStep(s, i);
    assert WorkerOk(s, i);
    RunFrame(s, i);
    MoverLowersRank(s, i);
    CrewRankUpdate(s, t, i, |s.workers|);
  }

  lemma MoverLowersRank(s: State, i: nat)
    requires CallOk(s) && RunEnabled(s, i) && WorkerOk(s, i)
    ensures SameJob(s, RunStep(s, i))
    ensures CallerRank(RunStep(s, i).caller, |s.workers|) + WorkerRank(RunStep(s, i), i)
      < CallerRank(s.caller, |s.workers|) + WorkerRank(s, i)
  {
    RunFrame(s, i);
    if s.active > 0 { RangeOrdered(s.job.rows, s.active, i); }
    hide Begin, End, Written, RowValue;
  }

  /** So does giving up because the environment is unusable. */
  lemma HostileLowersRank(s: State, i: nat)
    requires Inv(s) && Enabled(s, Hostile(i))
    ensures Rank(Apply(s, Hostile(i))) < Rank(s)
  {
    CrewRankUpdate(s, Apply(s, Hostile(i)), i, |s.workers|);
  }

  lemma CallerLowersRank(s: State)
    requires Inv(s) && LeadEnabled(s)
    ensures Rank(LeadStep(s)) < Rank(s)
  {
    var t := LeadStep(s);
    if s.caller.NotifyWork? || s.caller.NotifyStop? {
      CrewRankWoken(s, t, |s.workers|);
    } else {
      CrewRankSame(s, t, |s.workers|);
    }
  }

  /** A spurious wakeup raises the rank by one. */
  lemma WakeRaisesRank(s: State, a: Action)
    requires Inv(s) && Enabled(s, a) && (a.WakeWorker? || a.WakeCaller?)
    ensures Rank(Apply(s, a)) <= Rank(s) + 1
  {
    var t := Apply(s, a);
    if a.WakeWorker? {
      CrewRankUpdate(s, t, a.i, |s.workers|);
    } else {
      CrewRankSame(s, t, |s.workers|);
    }
  }

  predicate Spurious(a: Action) { a.WakeWorker? || a.WakeCaller? }
  predicate Productive(a: Action) { a.Run? || a.Hostile? || a.Lead? }

  function Count(actions: seq<Action>, counted: Action -> bool): nat {
    if actions == [] then 0 else
      Count(actions[..|actions| - 1], counted) + if counted(actions[|actions| - 1]) then 1 else 0
  }

  /** A stretch of a run in which nobody calls and nobody destroys the pool. */
  ghost predicate IsStretch(states: seq<State>, actions: seq<Action>) {
    && IsRun(states, actions) && Inv(states[0])
    && forall k :: 0 <= k < |actions| ==> !actions[k].Call? && !actions[k].Destroy?
  }

  /** However the scheduler behaves, a stretch takes at most Rank(states[0]) steps and one for each spurious wakeup. */
  lemma {:induction false} WorkIsBounded(states: seq<State>, actions: seq<Action>)
    requires IsStretch(states, actions)
    ensures Inv(states[|actions|])
    ensures Count(actions, Productive) + Rank(states[|actions|]) <= Rank(states[0]) + Count(actions, Spurious)
  {
    hide Inv, Enabled, Apply, Rank;
    if actions != [] {
      var n := |actions| - 1;
      assert forall k :: 0 <= k < n ==> Follows(states[k], actions[k], states[k + 1]);
      WorkIsBounded(states[..n + 1], actions[..n]);
      assert Follows(states[n], actions[n], states[n + 1]);
      StepRank(states[n], actions[n]);
    }
  }

  lemma StepRank(s: State, a: Action)
    requires Inv(s) && Enabled(s, a) && !a.Call? && !a.Destroy?
    ensures Inv(Apply(s, a))
    ensures Rank(Apply(s, a)) + (if Productive(a) then 1 else 0) <= Rank(s) + if Spurious(a) then 1 else 0
  {
    StepInv(s, a);
    hide Inv, Rank;
    match a
    case Run(i) => WorkerLowersRank(s, i);
    case Hostile(i) => HostileLowersRank(s, i);
    case Lead => CallerLowersRank(s);
    case WakeWorker(_) => WakeRaisesRank(s, a);
    case WakeCaller => WakeRaisesRank(s, a);
  }

  /** The ranges add up to the rows, so a call begins with a rank linear in its rows and in the workers. */
  lemma CallRank(s: State, job: Job, requested: nat)
    requires Inv(s) && Enabled(s, Call(job, requested))
    ensures Rank(Apply(s, Call(job, requested))) <= job.rows + 8 * |s.workers| + 3
  {
    var t := Apply(s, Call(job, requested));
    CallInv(s, job, requested);
    forall i | 0 <= i < |t.workers| ensures !Busy(t.workers[i]) {
      assert WorkerOk(s, i);
    }
    CrewRankOfCall(t, |t.workers|);
    BeginGrows(job.rows, t.active, t.active, |t.workers|);
    RangesTile(job.rows, t.active, 0);
  }

  /** Nobody on the job is further from sleep than taking its share, its report and a look at the pool. */
  lemma IdleRank(s: State, i: nat)
    requires i < |s.workers| && !Busy(s.workers[i])
    ensures WorkerRank(s, i) <= Share(s, i) + 7
  {
    hide Share;
  }

  lemma {:induction false} CrewRankOfCall(s: State, n: nat)
    requires Inv(s) && s.caller.NotifyWork? && n <= |s.workers|
    requires forall i :: 0 <= i < |s.workers| ==> !Busy(s.workers[i])
    ensures CrewRank(s, n) <= Begin(s.job.rows, s.active, if n < s.active then n else s.active) + 7 * n
  {
    assert s.active > 0;
    hide Inv, CallOk;
    RangesTile(s.job.rows, s.active, 0);
    hide Begin, End;
    if n > 0 {
      CrewRankOfCall(s, n - 1);
      RangesTile(s.job.rows, s.active, n - 1);
      IdleRank(s, n - 1);
    }
  }

  /**
   * A call takes at most as many steps as it has rows, eight for each worker, three, and one for each
   * spurious wakeup, and until it has returned some such step is enabled.
   */
  lemma CallsReturn(states: seq<State>, actions: seq<Action>, job: Job, requested: nat)
    requires IsRun(states, actions) && actions != [] && Inv(states[0]) && actions[0] == Call(job, requested)
    requires forall k :: 1 <= k < |actions| ==> !actions[k].Call? && !actions[k].Destroy?
    ensures Count(actions[1..], Productive) <= job.rows + 8 * |states[0].workers| + 3 + Count(actions[1..], Spurious)
    ensures var last := states[|actions|]; last.caller.Idle? || exists a :: Productive(a) && Enabled(last, a)
  {
    assert Enabled(states[0], Call(job, requested)) ==> states[0].caller.Idle?;
    hide Inv, Enabled, Apply, Rank, Count;
    assert Follows(states[0], actions[0], states[1]);
    StepInv(states[0], actions[0]);
    CallRank(states[0], job, requested);
    forall k | 0 <= k < |actions| - 1 ensures Follows(states[1..][k], actions[1..][k], states[1..][k + 1]) {
      assert Follows(states[k + 1], actions[k + 1], states[k + 2]);
    }
    WorkIsBounded(states[1..], actions[1..]);
    NeverGone(states, actions);
    if !states[|actions|].caller.Idle? {
      var a := CanMove(states[|actions|]);
      assert Productive(a);
    }
  }

  /** Nobody destroys the pool, so it is not gone. */
  lemma {:induction false} NeverGone(states: seq<State>, actions: seq<Action>)
    requires IsRun(states, actions) && !Stopping(states[0].caller)
    requires forall k :: 0 <= k < |actions| ==> !actions[k].Destroy?
    ensures !Stopping(states[|actions|].caller)
  {
    var n := |actions|;
    if n > 0 {
      assert forall k :: 0 <= k < n - 1 ==> Follows(states[k], actions[k], states[k + 1]);
      NeverGone(states[..n], actions[..n - 1]);
      assert Follows(states[n - 1], actions[n - 1], states[n]);
    }
  }
}
