/**
 * The barrier protocol of the expert triple in tools/fused_gemv.c as a transition system: workers claim
 * chunks of two phases from two shared counters, a growing arrival counter is the barrier, and worker 0
 * resets the claim counters between the second and third barrier of every iteration.  Atomic
 * operations are sequentially consistent steps; spinning on the barrier is waiting for its step.
 */
module ExpertTriple {

  /** Chunks of the first phase (rows of w1 and w3) and of the second (rows of w2). */
  const CHUNK: nat := 32
  const FIRST_CHUNKS: nat := 2 * (3072 / CHUNK)
  const SECOND_CHUNKS: nat := 3584 / CHUNK

  type Phase = b: nat | b < 2

  function Limit(b: Phase): nat { if b == 0 then FIRST_CHUNKS else SECOND_CHUNKS }

  datatype Pc =
    | Claim(b: Phase)             // fetch_add on the counter of the phase
    | Run(b: Phase, chunk: nat)
    | Arrive(k: nat)              // fetch_add on the barrier counter
    | Await(k: nat)               // until the barrier counter reaches its target
    | Reset(b: Phase)             // worker 0 alone
    | Done

  datatype Worker = Worker(iteration: nat, pc: Pc)

  /** `ran` counts the runs of every chunk of every iteration; `owner` remembers who claimed a chunk last. */
  datatype State = State(iterations: nat, barrier: nat, counter: seq<nat>, workers: seq<Worker>,
                         ran: seq<seq<seq<nat>>>, owner: seq<seq<nat>>)

  function Start(iterations: nat): Worker {
    Worker(0, if iterations == 0 then Done else Claim(0))
  }

  function Zeros(n: nat): seq<nat> { seq(n, _ => 0) }

  function Initial(workers: nat, iterations: nat): State {
    State(iterations, 0, [0, 0], seq(workers, _ => Start(iterations)),
          seq(2, b requires 0 <= b < 2 => seq(iterations, _ => Zeros(Limit(b)))),
          seq(2, b requires 0 <= b < 2 => Zeros(Limit(b))))
  }

  predicate Shaped(s: State) {
    && |s.counter| == |s.ran| == |s.owner| == 2
    && forall b: Phase :: |s.ran[b]| == s.iterations && |s.owner[b]| == Limit(b) && RowsShaped(s.ran[b], Limit(b))
  }

  predicate RowsShaped(rows: seq<seq<nat>>, n: nat) { forall j :: 0 <= j < |rows| ==> |rows[j]| == n }

  // ---------------------------------------------------------------- steps

  /** Where a worker stands after the barrier k of its iteration. */
  function AfterBarrier(w: Worker, i: nat, k: nat, iterations: nat): Worker {
    if k == 0 then w.(pc := Claim(1))
    else if k == 1 then w.(pc := if i == 0 then Reset(0) else Arrive(2))
    else Worker(w.iteration + 1, if w.iteration + 1 >= iterations then Done else Claim(0))
  }

  function Target(s: State, w: Worker, k: nat): nat { |s.workers| * (3 * w.iteration + k + 1) }

  predicate Enabled(s: State, i: nat) {
    && i < |s.workers| && !s.workers[i].pc.Done?
    && (s.workers[i].pc.Await? ==> s.barrier >= Target(s, s.workers[i], s.workers[i].pc.k))
  }

  function At(s: State, i: nat, w: Worker): State
    requires i < |s.workers|
  {
    s.(workers := s.workers[i := w])
  }

  function Replaced(list: seq<nat>, u: nat, x: nat): seq<nat>
    requires u < |list|
  {
    list[u := x]
  }

  function Step(s: State, i: nat): State
    requires Shaped(s) && Enabled(s, i)
  {
    var w := s.workers[i];
    match w.pc
    case Claim(b) =>
      var u := s.counter[b];
      var claimed := s.(counter := s.counter[b := u + 1]);
      if u < Limit(b) then At(claimed.(owner := s.owner[b := Replaced(s.owner[b], u, i)]), i, w.(pc := Run(b, u)))
      else At(claimed, i, w.(pc := Arrive(b)))
    case Run(b, u) => At(Count(s, b, w.iteration, u), i, w.(pc := Claim(b)))
    case Arrive(k) => At(s.(barrier := s.barrier + 1), i, w.(pc := Await(k)))
    case Await(k) => At(s, i, AfterBarrier(w, i, k, s.iterations))
    case Reset(b) => At(s.(counter := s.counter[b := 0]), i, w.(pc := if b == 0 then Reset(1) else Arrive(2)))
    case Done => s
  }

  /** One more run of a chunk. */
  function Count(s: State, b: Phase, j: nat, u: nat): State
    requires Shaped(s)
  {
    if j < s.iterations && u < Limit(b)
    then s.(ran := s.ran[b := s.ran[b][j := Replaced(s.ran[b][j], u, s.ran[b][j][u] + 1)]])
    else s
  }

  ghost predicate IsRun(states: seq<State>, schedule: seq<nat>) {
    && |states| == |schedule| + 1
    && forall k :: 0 <= k < |schedule| ==> Follows(states[k], schedule[k], states[k + 1])
  }

  ghost predicate Follows(s: State, i: nat, t: State) {
    Shaped(s) && Enabled(s, i) && t == Step(s, i)
  }

  // ---------------------------------------------------------------- the invariant

  /** Barriers a worker has added itself to, and barriers it has passed. */
  function Arrivals(w: Worker): nat {
    match w.pc
    case Claim(b) => 3 * w.iteration + b
    case Run(b, _) => 3 * w.iteration + b
    case Arrive(k) => 3 * w.iteration + k
    case Await(k) => 3 * w.iteration + k + 1
    case Reset(_) => 3 * w.iteration + 2
    case Done => 3 * w.iteration
  }

  function Passed(w: Worker): nat {
    match w.pc
    case Await(k) => 3 * w.iteration + k
    case _ => Arrivals(w)
  }

  function TotalArrivals(workers: seq<Worker>): nat {
    if workers == [] then 0 else TotalArrivals(workers[..|workers| - 1]) + Arrivals(workers[|workers| - 1])
  }

  /** The iteration a phase's counter belongs to: how often worker 0 has reset it. */
  function Round(s: State, b: Phase): nat
    requires s.workers != []
  {
    var w := s.workers[0];
    w.iteration + match w.pc
                  case Reset(c) => if c > b then 1 else 0
                  case Arrive(k) => if k == 2 then 1 else 0
                  case Await(k) => if k == 2 then 1 else 0
                  case _ => 0
  }

  predicate Claiming(w: Worker, b: Phase) { (w.pc.Claim? || w.pc.Run?) && w.pc.b == b }

  /** The worker has left the phase's claim loop in its iteration. */
  predicate Past(w: Worker, b: Phase) {
    match w.pc
    case Claim(c) => c > b
    case Run(c, _) => c > b
    case Arrive(k) => k >= b
    case Await(k) => k >= b
    case Reset(_) => true
    case Done => false
  }

  predicate Placed(s: State, i: nat)
    requires i < |s.workers|
  {
    var w := s.workers[i];
    && (if w.pc.Done? then w.iteration == s.iterations else w.iteration < s.iterations)
    && (w.pc.Reset? ==> i == 0)
    && (w.pc.Arrive? ==> w.pc.k < 3) && (w.pc.Await? ==> w.pc.k < 3)
  }

  /** Nobody has passed a barrier that somebody has not reached. */
  predicate InStep(s: State) {
    forall v, w :: 0 <= v < |s.workers| && 0 <= w < |s.workers| ==> Passed(s.workers[w]) <= Arrivals(s.workers[v])
  }

  /** A claiming worker is in the counter's round, and leaving the loop means the chunks are claimed. */
  predicate ClaimOk(s: State, i: nat, b: Phase)
    requires Shaped(s) && i < |s.workers|
  {
    var w := s.workers[i];
    && (Claiming(w, b) ==> w.iteration == Round(s, b))
    && (w.iteration == Round(s, b) && Past(w, b) ==> s.counter[b] >= Limit(b))
    && (w.pc.Run? && w.pc.b == b ==> w.pc.chunk < Limit(b) && w.pc.chunk < s.counter[b] && s.owner[b][w.pc.chunk] == i
                                     && w.iteration < s.iterations && s.ran[b][w.iteration][w.pc.chunk] == 0)
  }

  /** A chunk of a finished round has run once, of a later round not at all, of this round once or by its owner now. */
  predicate ChunkOk(s: State, b: Phase, j: nat, u: nat)
    requires Shaped(s) && s.workers != [] && j < s.iterations && u < Limit(b)
  {
    if j < Round(s, b) then s.ran[b][j][u] == 1
    else if j > Round(s, b) || u >= s.counter[b] then s.ran[b][j][u] == 0
    else
      || s.ran[b][j][u] == 1
      || (s.ran[b][j][u] == 0 && s.owner[b][u] < |s.workers| && s.workers[s.owner[b][u]] == Worker(j, Run(b, u)))
  }

  ghost predicate Inv(s: State) {
    && Shaped(s) && s.workers != [] && InStep(s)
    && s.barrier == TotalArrivals(s.workers)
    && (forall i :: 0 <= i < |s.workers| ==> Placed(s, i))
    && (forall i, b: Phase :: 0 <= i < |s.workers| ==> ClaimOk(s, i, b))
    && (forall b: Phase, j, u :: 0 <= j < s.iterations && 0 <= u < Limit(b) ==> ChunkOk(s, b, j, u))
  }

  lemma InitialInv(workers: nat, iterations: nat)
    requires workers > 0
    ensures Inv(Initial(workers, iterations))
  {
    NoArrivals(Initial(workers, iterations).workers);
  }

  lemma {:induction false} NoArrivals(workers: seq<Worker>)
    requires forall i :: 0 <= i < |workers| ==> Arrivals(workers[i]) == 0
    ensures TotalArrivals(workers) == 0
  {
    if workers != [] {
      NoArrivals(workers[..|workers| - 1]);
    }
  }

  // ---------------------------------------------------------------- the barrier

  lemma {:induction false} TotalReplaced(workers: seq<Worker>, i: nat, w: Worker)
    requires i < |workers|
    ensures TotalArrivals(workers[i := w]) == TotalArrivals(workers) - Arrivals(workers[i]) + Arrivals(w)
  {
    var n := |workers| - 1;
    if i < n {
      TotalReplaced(workers[..n], i, w);
      assert workers[i := w][..n] == workers[..n][i := w];
    } else {
      assert workers[i := w][..n] == workers[..n];
    }
  }

  /** n times c, one at a time. */
  function Full(n: nat, c: nat): nat { if n == 0 then 0 else Full(n - 1, c) + c }

  lemma {:induction false} FullIsProduct(n: nat, c: nat)
    ensures Full(n, c) == n * c
  {
    if n > 0 {
      FullIsProduct(n - 1, c);
      assert n * c == (n - 1) * c + c;
    }
  }

  /** If nobody is beyond a count and the total is everybody at it, everybody is at it. */
  lemma {:induction false} EveryoneArrived(workers: seq<Worker>, c: nat, v: nat)
    requires forall i :: 0 <= i < |workers| ==> Arrivals(workers[i]) <= c
    ensures TotalArrivals(workers) <= Full(|workers|, c)
    ensures TotalArrivals(workers) >= Full(|workers|, c) && v < |workers| ==> Arrivals(workers[v]) == c
  {
    if workers != [] {
      var n := |workers| - 1;
      EveryoneArrived(workers[..n], c, v);
      assert v < n ==> workers[..n][v] == workers[v];
      hide Arrivals;
    }
  }

  /** Passing a barrier means everybody has reached it. */
  lemma BarrierHolds(s: State, i: nat, v: nat)
    requires InStep(s) && s.barrier == TotalArrivals(s.workers) && v < |s.workers|
    requires Enabled(s, i) && s.workers[i].pc.Await?
    ensures Arrivals(s.workers[v]) >= Arrivals(s.workers[i])
  {
    var c := Arrivals(s.workers[i]);
    FullIsProduct(|s.workers|, c);
    if forall u :: 0 <= u < |s.workers| ==> Arrivals(s.workers[u]) <= c {
      EveryoneArrived(s.workers, c, v);
    } else {
      var u :| 0 <= u < |s.workers| && Arrivals(s.workers[u]) > c;
      assert Passed(s.workers[u]) >= c;
    }
  }

  // ---------------------------------------------------------------- what a step keeps

  /** A step changes one worker; its arrivals grow only at a barrier, and it passes only what it has reached. */
  lemma StepMoves(s: State, i: nat)
    requires Shaped(s) && Enabled(s, i) && Placed(s, i)
    ensures var t := Step(s, i);
      && t.iterations == s.iterations && |t.workers| == |s.workers|
      && t.workers == s.workers[i := t.workers[i]]
      && Arrivals(t.workers[i]) == Arrivals(s.workers[i]) + (if s.workers[i].pc.Arrive? then 1 else 0)
      && t.barrier == s.barrier + (if s.workers[i].pc.Arrive? then 1 else 0)
      && Passed(t.workers[i]) == (if s.workers[i].pc.Await? then Arrivals(s.workers[i]) else Passed(s.workers[i]))
      && Placed(t, i)
  {
  }

  lemma StepShaped(s: State, i: nat)
    requires Shaped(s) && Enabled(s, i)
    ensures Shaped(Step(s, i))
  {
  }

  lemma StepInStep(s: State, i: nat)
    requires Shaped(s) && Enabled(s, i) && Placed(s, i) && InStep(s) && s.barrier == TotalArrivals(s.workers)
    ensures InStep(Step(s, i)) && Step(s, i).barrier == TotalArrivals(Step(s, i).workers)
  {
    var t := Step(s, i);
    StepMoves(s, i);
    TotalReplaced(s.workers, i, t.workers[i]);
    hide Step, Arrivals, Passed, Shaped, TotalArrivals, Placed, Enabled;
    forall v, w | 0 <= v < |t.workers| && 0 <= w < |t.workers| ensures Passed(t.workers[w]) <= Arrivals(t.workers[v]) {
      if w == i && s.workers[i].pc.Await? {
        BarrierHolds(s, i, v);
      } else {
        assert Passed(s.workers[w]) <= Arrivals(s.workers[v]);
      }
    }
  }

  /** Only a reset begins a new round of a counter. */
  lemma StepRound(s: State, i: nat, b: Phase)
    requires Shaped(s) && Enabled(s, i) && Placed(s, i) && |s.workers| > 0
    ensures Round(Step(s, i), b) == Round(s, b) + if s.workers[i].pc == Reset(b) then 1 else 0
  {
  }

  /** While worker 0 resets a counter nobody claims from it, and nobody is in the next iteration. */
  lemma ResetAlone(s: State, v: nat, b: Phase)
    requires Shaped(s) && s.workers != [] && v < |s.workers| && InStep(s) && s.workers[0].pc.Reset? && ClaimOk(s, v, b)
    requires Round(s, b) == s.workers[0].iteration
    ensures !Claiming(s.workers[v], b) && s.workers[v].iteration <= s.workers[0].iteration
  {
    assert Passed(s.workers[0]) <= Arrivals(s.workers[v]);
    assert Passed(s.workers[v]) <= Arrivals(s.workers[0]);
  }

  /** The counter a worker is about to claim from is in its iteration. */
  lemma EntersRound(s: State, i: nat)
    requires Shaped(s) && Enabled(s, i) && Placed(s, i) && Placed(s, 0) && InStep(s)
    requires s.barrier == TotalArrivals(s.workers)
    requires s.workers[i].pc.Await?
    ensures s.workers[i].pc.k == 0 ==> Round(s, 1) == s.workers[i].iteration
    ensures s.workers[i].pc.k == 2 ==> Round(s, 0) == s.workers[i].iteration + 1
  {
    BarrierHolds(s, i, 0);
    assert Passed(s.workers[0]) <= Arrivals(s.workers[i]);
  }

  /** The mover's own claims. */
  lemma MoverClaims(s: State, i: nat, b: Phase)
    requires Shaped(s) && Enabled(s, i) && Placed(s, i) && ClaimOk(s, i, b)
    requires s.workers[i].pc.Await? && s.workers[i].pc.k == 0 ==> Round(s, 1) == s.workers[i].iteration
    requires s.workers[i].pc.Await? && s.workers[i].pc.k == 2 ==> Round(s, 0) == s.workers[i].iteration + 1
    requires s.workers[i].pc == Claim(b) && s.counter[b] < Limit(b) ==>
      s.ran[b][s.workers[i].iteration][s.counter[b]] == 0
    ensures Shaped(Step(s, i)) && ClaimOk(Step(s, i), i, b)
  {
    StepRound(s, i, b);
    hide Round;
  }

  /** The claims of everybody else. */
  lemma OtherClaims(s: State, i: nat, v: nat, b: Phase)
    requires Shaped(s) && Enabled(s, i) && Placed(s, i) && v < |s.workers| && v != i && ClaimOk(s, v, b)
    requires s.workers[i].pc.Run? ==> ClaimOk(s, i, s.workers[i].pc.b)
    requires s.workers[i].pc == Reset(b) ==> !Claiming(s.workers[v], b) && s.workers[v].iteration < Round(s, b) + 1
    ensures Shaped(Step(s, i)) && ClaimOk(Step(s, i), v, b)
  {
    StepRound(s, i, b);
    hide Round;
  }

  lemma StepClaims(s: State, i: nat, v: nat, b: Phase)
    requires Inv(s) && Enabled(s, i) && v < |s.workers|
    ensures Shaped(Step(s, i)) && ClaimOk(Step(s, i), v, b)
  {
    var w := s.workers[i];
    assert Placed(s, i) && Placed(s, 0) && ClaimOk(s, v, b) && ClaimOk(s, i, b);
    if w.pc == Reset(b) { ResetAlone(s, v, b); }
    if w.pc.Await? { EntersRound(s, i); }
    if w.pc.Run? { assert ClaimOk(s, i, w.pc.b); }
    if w.pc == Claim(b) && s.counter[b] < Limit(b) { assert ChunkOk(s, b, w.iteration, s.counter[b]); }
    hide Inv, InStep, Enabled;
    if v == i {
      MoverClaims(s, i, b);
    } else {
      OtherClaims(s, i, v, b);
    }
  }

  lemma MoverChunk(s: State, i: nat, b: Phase, j: nat, u: nat)
    requires Shaped(s) && s.workers != [] && Enabled(s, i) && Placed(s, i) && ClaimOk(s, i, b)
    requires j < s.iterations && u < Limit(b) && ChunkOk(s, b, j, u)
    requires s.workers[i].pc.Run? ==> ClaimOk(s, i, s.workers[i].pc.b)
    requires s.workers[i].pc == Reset(b) ==> s.counter[b] >= Limit(b)
    requires s.workers[i].pc == Reset(b) && s.owner[b][u] < |s.workers| ==> !Claiming(s.workers[s.owner[b][u]], b)
    ensures Shaped(Step(s, i)) && ChunkOk(Step(s, i), b, j, u)
  {
    StepRound(s, i, b);
    hide Round;
  }

  lemma StepChunk(s: State, i: nat, b: Phase, j: nat, u: nat)
    requires Inv(s) && Enabled(s, i) && j < s.iterations && u < Limit(b)
    ensures Shaped(Step(s, i)) && ChunkOk(Step(s, i), b, j, u)
  {
    var w := s.workers[i];
    assert Placed(s, i) && ClaimOk(s, i, b) && ChunkOk(s, b, j, u);
    if w.pc.Run? { assert ClaimOk(s, i, w.pc.b); }
    if w.pc == Reset(b) && s.owner[b][u] < |s.workers| {
      assert ClaimOk(s, s.owner[b][u], b);
      ResetAlone(s, s.owner[b][u], b);
    }
    hide Inv, InStep, Enabled, ChunkOk;
    MoverChunk(s, i, b, j, u);
  }

  lemma StepInv(s: State, i: nat)
    requires Inv(s) && Enabled(s, i)
    ensures Inv(Step(s, i))
  {
    var t := Step(s, i);
    assert Placed(s, i);
    StepShaped(s, i);
    StepInStep(s, i);
    StepMoves(s, i);
    hide Step, Arrivals, Passed, InStep, TotalArrivals, ClaimOk, ChunkOk, Enabled;
    forall v | 0 <= v < |t.workers| ensures Placed(t, v) {
      assert Placed(s, v);
    }
    forall v, b: Phase | 0 <= v < |t.workers| ensures ClaimOk(t, v, b) {
      StepClaims(s, i, v, b);
    }
    forall b: Phase, j, u | 0 <= j < t.iterations && 0 <= u < Limit(b) ensures ChunkOk(t, b, j, u) {
      StepChunk(s, i, b, j, u);
    }
  }

  /** Every state of every run satisfies the invariant. */
  lemma {:induction false} ReachableInv(states: seq<State>, schedule: seq<nat>, workers: nat, iterations: nat)
    requires IsRun(states, schedule) && workers > 0 && states[0] == Initial(workers, iterations)
    ensures Inv(states[|schedule|]) && states[|schedule|].iterations == iterations
    ensures |states[|schedule|].workers| == workers
  {
    var n := |schedule|;
    if n == 0 {
      InitialInv(workers, iterations);
    } else {
      assert forall k :: 0 <= k < n - 1 ==> Follows(states[k], schedule[k], states[k + 1]);
      ReachableInv(states[..n], schedule[..n - 1], workers, iterations);
      assert Follows(states[n - 1], schedule[n - 1], states[n]);
      StepInv(states[n - 1], schedule[n - 1]);
      StepMoves(states[n - 1], schedule[n - 1]);
    }
  }

  // ---------------------------------------------------------------- the theorems

  /** No chunk of any iteration ever runs twice. */
  lemma NeverTwice(states: seq<State>, schedule: seq<nat>, workers: nat, iterations: nat, b: Phase, j: nat, u: nat)
    requires IsRun(states, schedule) && workers > 0 && states[0] == Initial(workers, iterations)
    requires j < iterations && u < Limit(b)
    ensures Shaped(states[|schedule|]) && states[|schedule|].iterations == iterations
    ensures states[|schedule|].ran[b][j][u] <= 1
  {
    ReachableInv(states, schedule, workers, iterations);
    assert ChunkOk(states[|schedule|], b, j, u);
  }

  /** When all workers are done every chunk of both phases of every iteration has run exactly once. */
  lemma ExactlyOnce(states: seq<State>, schedule: seq<nat>, workers: nat, iterations: nat, b: Phase, j: nat, u: nat)
    requires IsRun(states, schedule) && workers > 0 && states[0] == Initial(workers, iterations)
    requires j < iterations && u < Limit(b)
    requires forall i :: 0 <= i < |states[|schedule|].workers| ==> states[|schedule|].workers[i].pc.Done?
    ensures Shaped(states[|schedule|]) && states[|schedule|].iterations == iterations
    ensures states[|schedule|].ran[b][j][u] == 1
  {
    ReachableInv(states, schedule, workers, iterations);
    assert Placed(states[|schedule|], 0);
    assert ChunkOk(states[|schedule|], b, j, u);
  }

  /** A worker in the second phase of an iteration finds every chunk of its first phase done. */
  lemma FirstPhaseDone(s: State, i: nat, u: nat)
    requires Inv(s) && i < |s.workers| && Claiming(s.workers[i], 1) && u < Limit(0)
    ensures s.workers[i].iteration < s.iterations && s.ran[0][s.workers[i].iteration][u] == 1
  {
    var w := s.workers[i];
    assert Placed(s, i) && Placed(s, 0) && ClaimOk(s, i, 0) && ClaimOk(s, i, 1) && ChunkOk(s, 0, w.iteration, u);
    assert Passed(w) <= Arrivals(s.workers[0]) && Passed(s.workers[0]) <= Arrivals(w);
    if s.owner[0][u] < |s.workers| {
      assert Passed(w) <= Arrivals(s.workers[s.owner[0][u]]);
    }
  }

  /** So no chunk of a second phase starts before the first phase of that iteration has finished. */
  lemma PhasesDoNotOverlap(states: seq<State>, schedule: seq<nat>, workers: nat, iterations: nat, i: nat, u: nat)
    requires IsRun(states, schedule) && workers > 0 && states[0] == Initial(workers, iterations)
    requires i < |states[|schedule|].workers| && Claiming(states[|schedule|].workers[i], 1) && u < Limit(0)
    ensures Shaped(states[|schedule|]) && states[|schedule|].workers[i].iteration < states[|schedule|].iterations
    ensures states[|schedule|].ran[0][states[|schedule|].workers[i].iteration][u] == 1
  {
    ReachableInv(states, schedule, workers, iterations);
    FirstPhaseDone(states[|schedule|], i, u);
  }

  /** The counters are reset while nobody is in a claim loop. */
  lemma ResetNeverRaces(states: seq<State>, schedule: seq<nat>, workers: nat, iterations: nat, i: nat, v: nat)
    requires IsRun(states, schedule) && workers > 0 && states[0] == Initial(workers, iterations)
    requires i < |states[|schedule|].workers| && states[|schedule|].workers[i].pc.Reset?
    requires v < |states[|schedule|].workers|
    ensures i == 0 && !states[|schedule|].workers[v].pc.Claim? && !states[|schedule|].workers[v].pc.Run?
  {
    var s := states[|schedule|];
    ReachableInv(states, schedule, workers, iterations);
    assert Placed(s, i) && Placed(s, v);
    assert Passed(s.workers[i]) <= Arrivals(s.workers[v]) && Passed(s.workers[v]) <= Arrivals(s.workers[i]);
  }

  /** The barrier counter never exceeds three arrivals for every worker and iteration. */
  lemma BarrierBounded(s: State)
    requires Inv(s)
    ensures s.barrier <= |s.workers| * (3 * s.iterations)
  {
    forall i | 0 <= i < |s.workers| ensures Arrivals(s.workers[i]) <= 3 * s.iterations {
      assert Placed(s, i);
    }
    EveryoneArrived(s.workers, 3 * s.iterations, 0);
    FullIsProduct(|s.workers|, 3 * s.iterations);
  }

  lemma {:induction false} SomeoneLast(workers: seq<Worker>) returns (i: nat)
    requires workers != []
    ensures i < |workers| && forall v :: 0 <= v < |workers| ==> Passed(workers[i]) <= Passed(workers[v])
  {
    if |workers| == 1 {
      i := 0;
    } else {
      var n := |workers| - 1;
      i := SomeoneLast(workers[..n]);
      assert forall v :: 0 <= v < n ==> workers[..n][v] == workers[v];
      if Passed(workers[n]) < Passed(workers[i]) { i := n; }
    }
  }

  lemma {:induction false} AtLeast(workers: seq<Worker>, c: nat)
    requires forall i :: 0 <= i < |workers| ==> Arrivals(workers[i]) >= c
    ensures TotalArrivals(workers) >= Full(|workers|, c)
  {
    if workers != [] {
      AtLeast(workers[..|workers| - 1], c);
    }
  }

  /** Until everybody is done somebody can take a step that is not spinning. */
  lemma NoDeadlock(states: seq<State>, schedule: seq<nat>, workers: nat, iterations: nat) returns (i: nat)
    requires IsRun(states, schedule) && workers > 0 && states[0] == Initial(workers, iterations)
    requires exists v :: 0 <= v < |states[|schedule|].workers| && !states[|schedule|].workers[v].pc.Done?
    ensures Enabled(states[|schedule|], i)
  {
    var s := states[|schedule|];
    ReachableInv(states, schedule, workers, iterations);
    if v :| 0 <= v < |s.workers| && !s.workers[v].pc.Done? && !s.workers[v].pc.Await? {
      i := v;
    } else {
      i := SomeoneLast(s.workers);
      var v :| 0 <= v < |s.workers| && !s.workers[v].pc.Done?;
      assert Placed(s, i) && Placed(s, v);
      assert Passed(s.workers[i]) <= Passed(s.workers[v]) < 3 * s.iterations;
      var c := Arrivals(s.workers[i]);
      forall u | 0 <= u < |s.workers| ensures Arrivals(s.workers[u]) >= c {
        assert Placed(s, u) && Passed(s.workers[i]) <= Passed(s.workers[u]);
      }
      AtLeast(s.workers, c);
      FullIsProduct(|s.workers|, c);
    }
  }

  // ---------------------------------------------------------------- chunks and rows

  /** A chunk of the first phase belongs to one of two matrices. */
  function MatrixOf(chunk: nat): nat { if chunk >= FIRST_CHUNKS / 2 then 1 else 0 }
  function FirstRow(b: Phase, chunk: nat): nat {
    if b == 0 && chunk >= FIRST_CHUNKS / 2 then (chunk - FIRST_CHUNKS / 2) * CHUNK else chunk * CHUNK
  }

  predicate HoldsRow(b: Phase, chunk: nat, matrix: nat, row: nat) {
    && (b == 0 ==> MatrixOf(chunk) == matrix)
    && FirstRow(b, chunk) <= row < FirstRow(b, chunk) + CHUNK
  }

  function RowCount(b: Phase): nat { if b == 0 then 3072 else 3584 }

  /** Every row of every matrix of a phase is in exactly one chunk. */
  lemma ChunksTileRows(b: Phase, matrix: nat, row: nat) returns (chunk: nat)
    requires row < RowCount(b) && if b == 0 then matrix < 2 else matrix == 0
    ensures chunk < Limit(b) && HoldsRow(b, chunk, matrix, row)
    ensures forall other: nat :: other < Limit(b) && HoldsRow(b, other, matrix, row) ==> other == chunk
  {
    chunk := row / CHUNK + if matrix == 1 then FIRST_CHUNKS / 2 else 0;
  }
}
