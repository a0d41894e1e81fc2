/**
 * Termination of the expert triple: every step that is not spinning lowers a rank, so under any schedule
 * the workers take a bounded number of steps.  With ExpertTriple.NoDeadlock all of them finish.
 */
module ExpertTripleLiveness {
  import opened ExpertTriple

  /** Steps left to a worker in its iteration, apart from chunks it may still claim. */
  function PcRank(pc: Pc): nat {
    match pc
    case Claim(b) => if b == 0 then 11 else 8
    case Run(b, _) => if b == 0 then 12 else 9
    case Arrive(k) => if k == 0 then 10 else if k == 1 then 7 else 3
    case Await(k) => if k == 0 then 9 else if k == 1 then 6 else 2
    case Reset(b) => if b == 0 then 5 else 4
    case Done => 0
  }

  function WorkerRank(w: Worker, iterations: nat): nat {
    if w.pc.Done? || w.iteration >= iterations then 0 else PcRank(w.pc) + 12 * (iterations - w.iteration - 1)
  }

  function CrewRank(workers: seq<Worker>, iterations: nat): nat {
    if workers == [] then 0 else
      CrewRank(workers[..|workers| - 1], iterations) + WorkerRank(workers[|workers| - 1], iterations)
  }

  /** Two steps for every chunk of a phase that nobody has claimed, in this round and in those to come. */
  function PhaseRank(s: State, b: Phase): nat
    requires Shaped(s) && s.workers != []
  {
    2 * (if s.counter[b] < Limit(b) then Limit(b) - s.counter[b] else 0)
    + 2 * Limit(b) * (if Round(s, b) < s.iterations then s.iterations - Round(s, b) else 0)
  }

  function Rank(s: State): nat
    requires Shaped(s) && s.workers != []
  {
    CrewRank(s.workers, s.iterations) + PhaseRank(s, 0) + PhaseRank(s, 1)
  }

  lemma {:induction false} CrewRankReplaced(workers: seq<Worker>, iterations: nat, i: nat, w: Worker)
    requires i < |workers|
    ensures CrewRank(workers[i := w], iterations)
      == CrewRank(workers, iterations) - WorkerRank(workers[i], iterations) + WorkerRank(w, iterations)
  {
    hide WorkerRank;
    var n := |workers| - 1;
    if i < n {
      CrewRankReplaced(workers[..n], iterations, i, w);
      assert workers[i := w][..n] == workers[..n][i := w];
    } else {
      assert workers[i := w][..n] == workers[..n];
    }
  }

  /** The step takes a chunk of this phase. */
  predicate Takes(s: State, i: nat, b: Phase)
    requires Shaped(s) && i < |s.workers|
  {
    s.workers[i].pc == Claim(b) && s.counter[b] < Limit(b)
  }

  /** A claim trades two steps for the chunk against one; everything else moves the worker on. */
  lemma MoverAdvances(s: State, i: nat)
    requires Shaped(s) && Enabled(s, i) && Placed(s, i)
    ensures var t := Step(s, i);
      && |t.workers| == |s.workers|
      && WorkerRank(t.workers[i], s.iterations) + 1
         <= WorkerRank(s.workers[i], s.iterations) + if Takes(s, i, 0) || Takes(s, i, 1) then 2 else 0
  {
    hide Shaped, RowsShaped;
  }

  lemma PhaseAdvances(s: State, i: nat, b: Phase)
    requires Shaped(s) && s.workers != [] && Enabled(s, i) && Placed(s, i)
    requires s.workers[i].pc == Reset(b) ==> s.counter[b] >= Limit(b) && Round(s, b) < s.iterations
    ensures var t := Step(s, i);
      && Shaped(t) && t.workers != []
      && PhaseRank(t, b) + (if Takes(s, i, b) then 2 else 0) <= PhaseRank(s, b)
  {
    StepShaped(s, i);
    StepMoves(s, i);
    StepRound(s, i, b);
    hide Shaped, RowsShaped, Placed, Round;
  }

  /** A counter is reset when its chunks are all claimed, in a round before the last. */
  lemma ResetEndsRound(s: State, i: nat)
    requires Inv(s) && i < |s.workers| && s.workers[i].pc.Reset?
    ensures var b := s.workers[i].pc.b; s.counter[b] >= Limit(b) && Round(s, b) < s.iterations
  {
    assert Placed(s, i) && ClaimOk(s, i, 0) && ClaimOk(s, i, 1);
  }

  /** Every step lowers the rank. */
  lemma StepLowersRank(s: State, i: nat)
    requires Inv(s) && Enabled(s, i)
    ensures Inv(Step(s, i)) && Rank(Step(s, i)) < Rank(s)
  {
    StepInv(s, i);
    assert Placed(s, i);
    if s.workers[i].pc.Reset? { ResetEndsRound(s, i); }
    StepMoves(s, i);
    MoverAdvances(s, i);
    PhaseAdvances(s, i, 0);
    PhaseAdvances(s, i, 1);
    assert !(Takes(s, i, 0) && Takes(s, i, 1));
    hide Inv, Step, WorkerRank, PhaseRank, Enabled, Takes, Placed, Arrivals, Passed;
    CrewRankReplaced(s.workers, s.iterations, i, Step(s, i).workers[i]);
  }

  lemma {:induction false} StartRank(workers: nat, iterations: nat, crew: seq<Worker>)
    requires |crew| == workers && forall i :: 0 <= i < workers ==> crew[i] == ExpertTriple.Start(iterations)
    ensures CrewRank(crew, iterations) <= 12 * iterations * workers
  {
    if workers > 0 {
      StartRank(workers - 1, iterations, crew[..workers - 1]);
      assert 12 * iterations * workers == 12 * iterations * (workers - 1) + 12 * iterations;
    }
  }

  lemma InitialRank(workers: nat, iterations: nat)
    requires workers > 0
    ensures Shaped(Initial(workers, iterations))
    ensures Rank(Initial(workers, iterations)) <= 12 * iterations * workers + 608 * (iterations + 1)
  {
    InitialPhase(workers, iterations, 0);
    InitialPhase(workers, iterations, 1);
    StartRank(workers, iterations, Initial(workers, iterations).workers);
    hide PhaseRank, CrewRank, Shaped;
  }

  lemma InitialPhase(workers: nat, iterations: nat, b: Phase)
    requires workers > 0
    ensures Shaped(Initial(workers, iterations))
    ensures PhaseRank(Initial(workers, iterations), b) == (if b == 0 then 384 else 224) * (iterations + 1)
  {
    InitialInv(workers, iterations);
    hide Inv, InStep, RowsShaped, CrewRank;
  }

  /**
   * Whatever the schedule, a run takes at most twelve steps for each worker and iteration and two for
   * each chunk; it cannot go on, and it can only end when every worker is done.
   */
  lemma {:induction false} RunsEnd(states: seq<State>, schedule: seq<nat>, workers: nat, iterations: nat)
    requires IsRun(states, schedule) && workers > 0 && states[0] == Initial(workers, iterations)
    ensures Inv(states[|schedule|])
    ensures |schedule| + Rank(states[|schedule|]) <= 12 * iterations * workers + 608 * (iterations + 1)
    ensures (forall i: nat :: !Enabled(states[|schedule|], i)) ==>
      forall i :: 0 <= i < |states[|schedule|].workers| ==> states[|schedule|].workers[i].pc.Done?
  {
    hide Rank, Step, Enabled;
    var n := |schedule|;
    if n == 0 {
      InitialInv(workers, iterations);
      InitialRank(workers, iterations);
    } else {
      assert forall k :: 0 <= k < n - 1 ==> Follows(states[k], schedule[k], states[k + 1]);
      RunsEnd(states[..n], schedule[..n - 1], workers, iterations);
      assert Follows(states[n - 1], schedule[n - 1], states[n]);
      StepLowersRank(states[n - 1], schedule[n - 1]);
    }
    if exists v :: 0 <= v < |states[n].workers| && !states[n].workers[v].pc.Done? {
      var i := NoDeadlock(states, schedule, workers, iterations);
    }
  }
}
