/**
 * Liveness of the worker pool of tools/fused_gemv_batch.c.  Two facts, for every scheduler: while an
 * operation is in progress some instruction of the pool is enabled (no lost wakeup, no missed
 * generation, no deadlock), and every instruction of the pool strictly lowers `Rank`.  So without
 * spurious wakeups a dispatch, rebuild or shutdown ends within Rank steps, and each spurious wakeup
 * buys at most seven more.
 */
module GemvPoolLiveness {
  import opened GemvPool
  import opened GemvPoolInvariant
  import opened GemvPoolSafety

  /** Whoever holds the mutex can take its next step. */
  lemma HolderMoves(s: State) returns (a: Action)
    requires Inv(s) && s.mutex != Nobody
    ensures Productive(a) && Enabled(s, a)
  {
    match s.mutex
    case Caller => a := Lead;
    case Member(i) =>
      assert MemberOk(s, i);
      a := Work(i);
  }

  /** A worker that is neither asleep nor gone can move once the mutex is free. */
  lemma AwakeMoves(s: State, i: nat)
    requires Inv(s) && s.mutex == Nobody && i < |s.workers|
    requires !s.workers[i].pc.Asleep? && !s.workers[i].pc.Exited?
    ensures Enabled(s, Work(i))
  {
  }

  /** Fewer than n members leave out an index below n. */
  lemma {:induction false} SomeMissing(n: nat, members: set<nat>) returns (i: nat)
    requires |members| < n
    ensures i < n && i !in members
  {
    i := n - 1;
    if i in members {
      i := SomeMissing(n - 1, members - {n - 1});
    }
  }

  /**
   * No lost wakeup and no deadlock: while a dispatch, a rebuild or a shutdown is in progress, some
   * instruction of the pool itself is enabled, without any spurious wakeup, timeout or yield.
   */
  lemma Progress(states: seq<State>, actions: seq<Action>, k: nat) returns (a: Action)
    requires IsRun(states, actions) && k < |states| && !states[k].caller.Idle?
    ensures Productive(a) && Enabled(states[k], a)
  {
    ReachableInv(states, actions, k);
    a := ProgressFrom(states[k]);
  }

  lemma ProgressFrom(s: State) returns (a: Action)
    requires Inv(s) && !s.caller.Idle?
    ensures Productive(a) && Enabled(s, a)
  {
    if s.mutex != Nobody {
      a := HolderMoves(s);
    } else if CallerEnabled(s) {
      a := Lead;
    } else {
      var i: nat;
      match s.caller {
        case Join(next, _) => i := next;
        case AwaitReady => i := SomeMissing(|s.workers|, s.readyBy);
        case WaitAsleep =>
          if s.finished < s.poolSize {
            i := SomeMissing(|s.workers|, s.finishedBy);
          } else {
            i :| SignalsDone(s, i);
          }
        case _ =>
      }
      assert MemberOk(s, i);
      AwakeMoves(s, i);
      a := Work(i);
    }
  }

  // ---------------------------------------------------------------- the ranking measure

  const SPINNING: nat := 2 * SPIN_WORKER + 20

  /** What seeing a new generation costs a worker, and what starting one does. */
  const GENERATION: nat := SPINNING + 20
  const CREATION: nat := SPINNING + 5
  const WAKEUP: nat := 7

  /** Instructions until the worker is asleep or gone, counting none of its units. */
  function Tail(pc: WorkerPc): nat {
    match pc
    case Start => SPINNING + 2
    case Latched => SPINNING + 1
    case PollGen(k) => if k <= SPIN_WORKER then SPINNING - 2 * k else 0
    case PollStop(k) => if k <= SPIN_WORKER then SPINNING - 2 * k - 1 else 0
    case LockWork => 13
    case Woken => 12
    case HeldGen => 11
    case HeldStop => 10
    case HeldWait => 9
    case Asleep => 5
    case UnlockWork => 3
    case ExitCheck => 2
    case LoadGen => 1
    case Exited => 0
    case Run(_) => SPINNING + 11
    case Claim => SPINNING + 10
    case Finish => SPINNING + 9
    case DoneLock => SPINNING + 8
    case DoneSignal => SPINNING + 7
    case DoneUnlock => SPINNING + 1
  }

  function WorkerRank(w: Worker, gen: nat): nat {
    Tail(w.pc) + if w.gen < gen && !w.pc.Start? then GENERATION else 0
  }

  function CrewRank(workers: seq<Worker>, gen: nat): nat {
    if workers == [] then 0 else WorkerRank(workers[0], gen) + CrewRank(workers[1..], gen)
  }

  function ThenRank(t: Then): nat {
    if t.Rebuild? then t.want * CREATION + 10 else 0
  }

  function CallerRank(c: CallerPc, crew: nat, units: nat): nat {
    match c
    case Idle => 0
    case WaitUnlock => 1
    case WaitAsleep => 3
    case WaitBlock => 5
    case WaitCheck => 6
    case WaitWoken => 7
    case WaitLock => 8
    case SpinDone(k) => if k <= SPIN_MASTER then 10 + SPIN_MASTER - k else 0
    case GenUnlock => SPIN_MASTER + 12
    case GenSignal => SPIN_MASTER + 13 + WAKEUP * crew
    case GenAdd => SPIN_MASTER + 14 + (WAKEUP + GENERATION) * crew
    case GenLock => SPIN_MASTER + 15 + (WAKEUP + GENERATION) * crew
    case StoreFinished => SPIN_MASTER + 16 + (WAKEUP + GENERATION) * crew
    case StoreCursor => SPIN_MASTER + 17 + (WAKEUP + GENERATION) * crew + 2 * units
    case InlineStore => 5 + 2 * units
    case InlineRun(_) => 2
    case InlineClaim => 1
    case ClearStop(t) => ThenRank(t) + 1
    case DropWorkers(t) => ThenRank(t) + 2
    case Join(k, t) => ThenRank(t) + 3 + if k <= crew then crew - k else 0
    case StopUnlock(t) => ThenRank(t) + 4 + crew
    case StopSignal(t) => ThenRank(t) + 5 + (1 + WAKEUP) * crew
    case StopSet(t) => ThenRank(t) + 6 + (1 + WAKEUP) * crew
    case StopLock(t) => ThenRank(t) + 7 + (1 + WAKEUP) * crew
    case Reset(want) => want * CREATION + 8
    case Create(want) => (if crew <= want then (want - crew) * CREATION else 0) + 5
    case AwaitReady => 3
    case SetWorkers => 2
  }

  /** Two instructions for every unit nobody has claimed. */
  function UnitRank(cursor: nat, units: nat): nat {
    if cursor < units then 2 * (units - cursor) else 0
  }

  function Rank(s: State): nat {
    CallerRank(s.caller, |s.workers|, s.units) + CrewRank(s.workers, s.gen) + UnitRank(s.cursor, s.units)
  }

  lemma {:induction false} CrewRankUpdate(workers: seq<Worker>, gen: nat, i: nat, w: Worker)
    requires i < |workers|
    ensures CrewRank(workers[i := w], gen) == CrewRank(workers, gen) - WorkerRank(workers[i], gen) + WorkerRank(w, gen)
  {
    if i == 0 {
      assert workers[0 := w][1..] == workers[1..];
    } else {
      CrewRankUpdate(workers[1..], gen, i - 1, w);
      assert workers[i := w][1..] == workers[1..][i - 1 := w];
    }
  }

  lemma {:induction false} CrewRankWake(workers: seq<Worker>, gen: nat)
    ensures CrewRank(WakeAll(workers), gen) <= CrewRank(workers, gen) + WAKEUP * |workers|
  {
    if workers != [] {
      CrewRankWake(workers[1..], gen);
      assert WakeAll(workers)[1..] == WakeAll(workers[1..]);
    }
  }

  lemma {:induction false} CrewRankGeneration(workers: seq<Worker>, gen: nat)
    ensures CrewRank(workers, gen + 1) <= CrewRank(workers, gen) + GENERATION * |workers|
  {
    if workers != [] {
      CrewRankGeneration(workers[1..], gen);
    }
  }

  lemma {:induction false} CrewRankAppend(workers: seq<Worker>, w: Worker, gen: nat)
    ensures CrewRank(workers + [w], gen) == CrewRank(workers, gen) + WorkerRank(w, gen)
  {
    if workers != [] {
      CrewRankAppend(workers[1..], w, gen);
      assert (workers + [w])[1..] == workers[1..] + [w];
    }
  }

  lemma IdlingLowersRank(s: State, i: nat)
    requires WorkerEnabled(s, i) && Idling(s.workers[i].pc) && PhaseOk(s, i)
    ensures WorkerRank(WorkerStep(s, i).workers[i], s.gen) < WorkerRank(s.workers[i], s.gen)
    ensures WorkerStep(s, i).caller == s.caller && WorkerStep(s, i).cursor == s.cursor
    ensures WorkerStep(s, i).units == s.units && WorkerStep(s, i).gen == s.gen
    ensures WorkerStep(s, i).workers == s.workers[i := WorkerStep(s, i).workers[i]]
  {
  }

  lemma WorkingLowersRank(s: State, i: nat)
    requires WorkerEnabled(s, i) && !Idling(s.workers[i].pc) && PhaseOk(s, i)
    ensures
      var t := WorkerStep(s, i);
      && t.workers == s.workers[i := t.workers[i]] && t.gen == s.gen && t.units == s.units
      && WorkerRank(t.workers[i], s.gen) + UnitRank(t.cursor, s.units) + CallerRank(t.caller, |s.workers|, s.units)
         < WorkerRank(s.workers[i], s.gen) + UnitRank(s.cursor, s.units) + CallerRank(s.caller, |s.workers|, s.units)
  {
  }

  lemma WorkerLowersRank(s: State, i: nat)
    requires Inv(s) && WorkerEnabled(s, i)
    ensures Rank(WorkerStep(s, i)) < Rank(s)
  {
    assert MemberOk(s, i);
    if Idling(s.workers[i].pc) { IdlingLowersRank(s, i); } else { WorkingLowersRank(s, i); }
    CrewRankUpdate(s.workers, s.gen, i, WorkerStep(s, i).workers[i]);
  }

  lemma DispatchLowersRank(s: State)
    requires StageOk(s) && CallerEnabled(s) && InDispatch(s.caller)
    ensures Rank(CallerStep(s)) < Rank(s)
  {
    CrewRankWake(s.workers, s.gen);
    CrewRankGeneration(s.workers, s.gen);
  }

  lemma StartLowersRank(s: State)
    requires StageOk(s) && CallerEnabled(s) && (Starting(s.caller) || s.caller.Reset?)
    ensures Rank(CallerStep(s)) < Rank(s)
  {
    CrewRankAppend(s.workers, Worker(Start, 0), s.gen);
  }

  lemma StopLowersRank(s: State)
    requires StageOk(s) && CallerEnabled(s) && (Stopping(s.caller) || s.caller.StopLock? || s.caller.StopSet?)
    ensures Rank(CallerStep(s)) < Rank(s)
  {
    CrewRankWake(s.workers, s.gen);
  }

  lemma CallerLowersRank(s: State)
    requires Inv(s) && CallerEnabled(s)
    ensures Rank(CallerStep(s)) < Rank(s)
  {
    if InDispatch(s.caller) {
      DispatchLowersRank(s);
    } else if Starting(s.caller) || s.caller.Reset? {
      StartLowersRank(s);
    } else {
      StopLowersRank(s);
    }
  }

  /** A spurious wakeup or timeout raises the rank by at most WAKEUP; a failed create or a yield never raises it. */
  lemma NoiseRank(s: State, a: Action)
    requires Inv(s) && Enabled(s, a) && !Productive(a) && !a.Ask?
    ensures Rank(Apply(s, a)) <= Rank(s) + if Spurious(a) then WAKEUP else 0
  {
    if a.WakeWorker? {
      CrewRankUpdate(s.workers, s.gen, a.worker, s.workers[a.worker].(pc := Woken));
    }
  }

  predicate Spurious(a: Action) { a.WakeWorker? || a.WakeCaller? }

  function CountProductive(actions: seq<Action>): nat {
    if actions == [] then 0
      else (if Productive(actions[|actions| - 1]) then 1 else 0) + CountProductive(actions[..|actions| - 1])
  }

  function CountSpurious(actions: seq<Action>): nat {
    if actions == [] then 0
      else (if Spurious(actions[|actions| - 1]) then 1 else 0) + CountSpurious(actions[..|actions| - 1])
  }

  /** A stretch of a run in which nobody makes a new request. */
  ghost predicate IsStretch(states: seq<State>, actions: seq<Action>) {
    && |states| == |actions| + 1
    && Inv(states[0])
    && forall k :: 0 <= k < |actions| ==> Follows(states[k], actions[k], states[k + 1]) && !actions[k].Ask?
  }

  /**
   * However the scheduler behaves, a stretch executes at most Rank(first state) instructions of the
   * pool plus WAKEUP for each spurious wakeup: with Progress, every operation that was begun returns.
   */
  lemma {:induction false} WorkIsBounded(states: seq<State>, actions: seq<Action>)
    requires IsStretch(states, actions)
    ensures Inv(states[|actions|])
    ensures CountProductive(actions) + Rank(states[|actions|]) <= Rank(states[0]) + WAKEUP * CountSpurious(actions)
  {
    if actions != [] {
      var n := |actions| - 1;
      WorkIsBounded(states[..n + 1], actions[..n]);
      var s, a := states[n], actions[n];
      assert states[..n + 1][n] == s;
      assert Follows(s, a, states[n + 1]);
      ActionInv(s, a);
      match a
      case Work(i) => WorkerLowersRank(s, i);
      case Lead => CallerLowersRank(s);
      case _ => NoiseRank(s, a);
    }
  }
}
