/**
 * The persistent worker pool of tools/fused_gemv_batch.c as a labelled transition system: one
 * action per atomic access or lock operation, for any number of workers and any sequence of
 * dispatches, rebuilds and shutdowns.  Atomics are sequentially consistent.
 *
 * The caller is whichever thread holds `g_api`; that mutex admits one at a time, so the model has
 * one caller.  `runs`, `claimedBy`, `readyBy` and `finishedBy` are history: no branch reads them.
 */
module GemvPool {

  const MAX_THREADS: nat := 32
  const SPIN_WORKER: nat := 40000
  const SPIN_MASTER: nat := 60000

  /** Where a worker stands in `k3_worker`. */
  datatype WorkerPc =
    | Start                    // created; has not latched the start generation
    | Latched                  // latched it; has not counted itself ready
    | PollGen(spins: nat)      // spin loop, about to load g_gen
    | PollStop(spins: nat)     // saw its own generation, about to load g_stop
    | LockWork                 // spun out, about to lock g_mu
    | HeldGen                  // holds g_mu, about to load g_gen
    | HeldStop                 // holds g_mu, saw its own generation, about to load g_stop
    | HeldWait                 // holds g_mu, decided to wait
    | Asleep                   // inside pthread_cond_wait(g_cv_work), g_mu released
    | Woken                    // signalled, about to re-lock g_mu
    | UnlockWork               // holds g_mu, about to unlock and leave the loop
    | ExitCheck                // about to test g_stop after the wait
    | LoadGen                  // about to reload its generation
    | Claim                    // about to fetch_add g_cursor
    | Run(unit: nat)           // computing a claimed unit
    | Finish                   // about to fetch_add g_finished
    | DoneLock                 // was the last to finish, about to lock g_mu
    | DoneSignal               // holds g_mu, about to broadcast g_cv_done
    | DoneUnlock               // holds g_mu, about to unlock
    | Exited

  datatype Worker = Worker(pc: WorkerPc, gen: nat)

  /** What `k3_pool_stop_locked` returns into. */
  datatype Then = Shutdown | Rebuild(want: nat)

  /** Where the thread holding `g_api` stands; Idle means `g_api` is free. */
  datatype CallerPc =
    | Idle
    | StoreCursor | StoreFinished
    | GenLock | GenAdd | GenSignal | GenUnlock
    | SpinDone(spins: nat)
    | WaitLock | WaitCheck | WaitBlock | WaitAsleep | WaitWoken | WaitUnlock
    | InlineStore | InlineClaim | InlineRun(unit: nat)
    | StopLock(andThen: Then) | StopSet(andThen: Then) | StopSignal(andThen: Then) | StopUnlock(andThen: Then)
    | Join(next: nat, andThen: Then) | DropWorkers(andThen: Then) | ClearStop(andThen: Then)
    | Reset(want: nat) | Create(want: nat) | AwaitReady | SetWorkers

  datatype Actor = Nobody | Caller | Member(worker: nat)

  datatype State = State(
    gen: nat, cursor: nat, finished: nat, ready: nat, stop: bool,
    units: nat, poolSize: nat,
    mutex: Actor, caller: CallerPc, workers: seq<Worker>,
    runs: seq<nat>, claimedBy: seq<Actor>, readyBy: set<nat>, finishedBy: set<nat>)

  /** What the outside world asks of an idle pool. */
  datatype Request = Dispatch(units: nat) | Init(threads: int) | Stop

  datatype Action =
    | Work(worker: nat)          // the next instruction of a worker
    | Lead                       // the next instruction of the caller
    | CreateFails                // pthread_create returns an error
    | Ask(request: Request)      // somebody takes g_api
    | WakeWorker(worker: nat)    // spurious wakeup of a waiting worker
    | WakeCaller                 // spurious wakeup or timeout of pthread_cond_timedwait
    | Yield                      // sched_yield while workers are still starting

  function Initial(): State {
    State(0, 0, 0, 0, false, 0, 0, Nobody, Idle, [], [], [], {}, {})
  }

  function Clamp(threads: int): nat {
    if threads < 1 then 1 else if threads > MAX_THREADS then MAX_THREADS else threads
  }

  // ---------------------------------------------------------------- worker instructions

  function At(s: State, i: nat, pc: WorkerPc): State
    requires i < |s.workers|
  {
    s.(workers := s.workers[i := s.workers[i].(pc := pc)])
  }

  function WakeAll(workers: seq<Worker>): (woken: seq<Worker>)
    ensures |woken| == |workers|
    ensures forall i :: 0 <= i < |workers| ==>
      woken[i] == if workers[i].pc.Asleep? then workers[i].(pc := Woken) else workers[i]
  {
    seq(|workers|, i requires 0 <= i < |workers| =>
      if workers[i].pc.Asleep? then workers[i].(pc := Woken) else workers[i])
  }

  predicate WorkerEnabled(s: State, i: nat) {
    i < |s.workers| &&
    match s.workers[i].pc
    case Asleep => false
    case Exited => false
    case LockWork => s.mutex == Nobody
    case Woken => s.mutex == Nobody
    case DoneLock => s.mutex == Nobody
    case _ => true
  }

  function WorkerStep(s: State, i: nat): State
    requires WorkerEnabled(s, i)
  {
    var w := s.workers[i];
    match w.pc
    case Start => s.(workers := s.workers[i := Worker(Latched, s.gen)])
    case Latched => At(s, i, PollGen(0)).(ready := s.ready + 1, readyBy := s.readyBy + {i})
    case PollGen(k) => At(s, i, if s.gen == w.gen then PollStop(k) else ExitCheck)
    case PollStop(k) =>
      At(s, i, if s.stop then ExitCheck else if k + 1 > SPIN_WORKER then LockWork else PollGen(k + 1))
    case LockWork => At(s, i, HeldGen).(mutex := Member(i))
    case Woken => At(s, i, HeldGen).(mutex := Member(i))
    case HeldGen => At(s, i, if s.gen == w.gen then HeldStop else UnlockWork)
    case HeldStop => At(s, i, if s.stop then UnlockWork else HeldWait)
    case HeldWait => At(s, i, Asleep).(mutex := Nobody)
    case UnlockWork => At(s, i, ExitCheck).(mutex := Nobody)
    case ExitCheck => At(s, i, if s.stop then Exited else LoadGen)
    case LoadGen => s.(workers := s.workers[i := Worker(Claim, s.gen)])
    case Claim => ClaimUnit(At(s, i, if s.cursor < s.units then Run(s.cursor) else Finish), Member(i))
    case Run(u) => RunUnit(At(s, i, Claim), u)
    case Finish =>
      At(s, i, if s.finished + 1 == s.poolSize then DoneLock else PollGen(0))
        .(finished := s.finished + 1, finishedBy := s.finishedBy + {i})
    case DoneLock => At(s, i, DoneSignal).(mutex := Member(i))
    case DoneSignal =>
      var woken := At(s, i, DoneUnlock);
      if s.caller.WaitAsleep? then woken.(caller := WaitWoken) else woken
    case DoneUnlock => At(s, i, PollGen(0)).(mutex := Nobody)
    case _ => s
  }

  /** fetch_add on the cursor, with its history. */
  function ClaimUnit(s: State, who: Actor): State {
    s.(cursor := s.cursor + 1,
       claimedBy := if s.cursor < |s.claimedBy| then s.claimedBy[s.cursor := who] else s.claimedBy)
  }

  /** The rows of one unit are computed, with its history. */
  function RunUnit(s: State, u: nat): State {
    if u < |s.runs| then s.(runs := s.runs[u := s.runs[u] + 1]) else s
  }

  // ---------------------------------------------------------------- caller instructions

  predicate CallerEnabled(s: State) {
    match s.caller
    case Idle => false
    case WaitAsleep => false
    case GenLock => s.mutex == Nobody
    case WaitLock => s.mutex == Nobody
    case WaitWoken => s.mutex == Nobody
    case StopLock(_) => s.mutex == Nobody
    case Join(k, _) => k < |s.workers| ==> s.workers[k].pc.Exited?
    case AwaitReady => s.ready >= |s.workers|
    case _ => true
  }

  function CallerStep(s: State): State
    requires CallerEnabled(s)
  {
    match s.caller
    case StoreCursor => s.(cursor := 0, caller := StoreFinished)
    case StoreFinished => s.(finished := 0, finishedBy := {}, caller := GenLock)
    case GenLock => s.(mutex := Caller, caller := GenAdd)
    case GenAdd => s.(gen := s.gen + 1, caller := GenSignal)
    case GenSignal => s.(workers := WakeAll(s.workers), caller := GenUnlock)
    case GenUnlock => s.(mutex := Nobody, caller := SpinDone(0))
    case SpinDone(k) =>
      s.(caller := if s.finished >= s.poolSize then Idle
                   else if k + 1 > SPIN_MASTER then WaitLock else SpinDone(k + 1))
    case WaitLock => s.(mutex := Caller, caller := WaitCheck)
    case WaitWoken => s.(mutex := Caller, caller := WaitCheck)
    case WaitCheck => s.(caller := if s.finished < s.poolSize then WaitBlock else WaitUnlock)
    case WaitBlock => s.(mutex := Nobody, caller := WaitAsleep)
    case WaitUnlock => s.(mutex := Nobody, caller := Idle)
    case InlineStore => s.(cursor := 0, caller := InlineClaim)
    case InlineClaim =>
      ClaimUnit(s.(caller := if s.cursor < s.units then InlineRun(s.cursor) else Idle), Caller)
    case InlineRun(u) => RunUnit(s.(caller := InlineClaim), u)
    case StopLock(t) => s.(mutex := Caller, caller := StopSet(t))
    case StopSet(t) => s.(stop := true, caller := StopSignal(t))
    case StopSignal(t) => s.(workers := WakeAll(s.workers), caller := StopUnlock(t))
    case StopUnlock(t) => s.(mutex := Nobody, caller := Join(0, t))
    case Join(k, t) => s.(caller := if k < |s.workers| then Join(k + 1, t) else DropWorkers(t))
    case DropWorkers(t) => s.(workers := [], poolSize := 0, caller := ClearStop(t))
    case ClearStop(t) => s.(stop := false, caller := if t.Rebuild? then Reset(t.want) else Idle)
    case Reset(n) =>
      s.(units := 0, runs := [], claimedBy := [], gen := 0, cursor := 0, finished := 0, ready := 0,
         readyBy := {}, finishedBy := {}, caller := Create(n))
    case Create(n) =>
      if |s.workers| < n then s.(workers := s.workers + [Worker(Start, 0)]) else s.(caller := AwaitReady)
    case AwaitReady => s.(caller := SetWorkers)
    case SetWorkers => s.(poolSize := |s.workers|, caller := Idle)
    case _ => s
  }

  function Accept(s: State, request: Request): State
    requires s.caller.Idle?
  {
    match request
    case Dispatch(n) =>
      var job := s.(units := n, runs := seq(n, _ => 0), claimedBy := seq(n, _ => Nobody));
      if n == 0 then job
      else if s.poolSize == 0 then job.(caller := InlineStore)
      else job.(caller := StoreCursor)
    case Init(threads) =>
      var want := Clamp(threads);
      if s.poolSize == want then s
      else if s.poolSize == 0 then s.(caller := Reset(want))
      else s.(caller := StopLock(Rebuild(want)))
    case Stop => if s.poolSize == 0 then s else s.(caller := StopLock(Shutdown))
  }

  // ---------------------------------------------------------------- the transition system

  predicate Enabled(s: State, a: Action) {
    match a
    case Work(i) => WorkerEnabled(s, i)
    case Lead => CallerEnabled(s)
    case CreateFails => s.caller.Create? && |s.workers| < s.caller.want
    case Ask(_) => s.caller.Idle?
    case WakeWorker(i) => i < |s.workers| && s.workers[i].pc.Asleep?
    case WakeCaller => s.caller.WaitAsleep?
    case Yield => s.caller.AwaitReady? && s.ready < |s.workers|
  }

  function Apply(s: State, a: Action): State
    requires Enabled(s, a)
  {
    match a
    case Work(i) => WorkerStep(s, i)
    case Lead => CallerStep(s)
    case CreateFails => s.(caller := AwaitReady)
    case Ask(request) => Accept(s, request)
    case WakeWorker(i) => At(s, i, Woken)
    case WakeCaller => s.(caller := WaitWoken)
    case Yield => s
  }

  /** A finite run: states[0] is initial and actions[k] leads from states[k] to states[k + 1]. */
  ghost predicate IsRun(states: seq<State>, actions: seq<Action>) {
    && |states| == |actions| + 1
    && states[0] == Initial()
    && forall k :: 0 <= k < |actions| ==> Follows(states[k], actions[k], states[k + 1])
  }

  predicate Follows(s: State, a: Action, t: State) {
    Enabled(s, a) && t == Apply(s, a)
  }

  /** An instruction of the pool, as opposed to a request, a failed create, a spurious wakeup or a yield. */
  predicate Productive(a: Action) { a.Work? || a.Lead? }
}
