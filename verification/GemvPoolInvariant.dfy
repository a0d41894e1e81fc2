/**
 * The invariant of the worker pool of tools/fused_gemv_batch.c, and that every action of the pool and
 * of its surroundings keeps it.
 */
module GemvPoolInvariant {
  import opened GemvPool

  predicate HoldsMutex(pc: WorkerPc) {
    pc.HeldGen? || pc.HeldStop? || pc.HeldWait? || pc.UnlockWork? || pc.DoneSignal? || pc.DoneUnlock?
  }

  predicate CallerHolds(c: CallerPc) {
    c.GenAdd? || c.GenSignal? || c.GenUnlock? || c.WaitCheck? || c.WaitBlock? || c.WaitUnlock?
    || c.StopSet? || c.StopSignal? || c.StopUnlock?
  }

  predicate Booting(pc: WorkerPc) { pc.Start? || pc.Latched? }

  /** The worker may touch the job, the cursor or the finish counter. */
  predicate OnJob(pc: WorkerPc) { pc.Claim? || pc.Run? || pc.Finish? }

  /** The worker is in the spin-then-wait half of its loop, or not in its loop yet. */
  predicate Idling(pc: WorkerPc) {
    Booting(pc) || pc.PollGen? || pc.PollStop? || pc.LockWork? || pc.HeldGen? || pc.HeldStop? || pc.HeldWait?
    || pc.Asleep? || pc.Woken? || pc.UnlockWork? || pc.ExitCheck? || pc.LoadGen?
  }

  /** Between publishing a generation and returning from the dispatch. */
  predicate Active(c: CallerPc) {
    c.GenSignal? || c.GenUnlock? || c.SpinDone? || c.WaitLock? || c.WaitCheck? || c.WaitBlock?
    || c.WaitAsleep? || c.WaitWoken? || c.WaitUnlock?
  }

  /** The dispatch is prepared but its generation is not published. */
  predicate Publishing(c: CallerPc) { c.StoreCursor? || c.StoreFinished? || c.GenLock? || c.GenAdd? }

  predicate Inline(c: CallerPc) { c.InlineClaim? || c.InlineRun? }

  predicate InDispatch(c: CallerPc) {
    Active(c) || Publishing(c) || Inline(c) || c.InlineStore?
  }

  predicate Starting(c: CallerPc) { c.Create? || c.AwaitReady? || c.SetWorkers? }

  predicate Stopping(c: CallerPc) {
    c.StopSignal? || c.StopUnlock? || c.Join? || c.DropWorkers? || c.ClearStop?
  }

  /** The mutex belongs to the worker exactly when its instruction pointer says so. */
  predicate MutexOk(s: State, i: nat)
    requires i < |s.workers|
  {
    HoldsMutex(s.workers[i].pc) <==> s.mutex == Member(i)
  }

  /** Which generation a worker may be on, and what it may still believe about it. */
  predicate PhaseOk(s: State, i: nat)
    requires i < |s.workers|
  {
    var w := s.workers[i];
    && (Booting(w.pc) ==> s.caller.Create? || s.caller.AwaitReady?)
    && (w.pc.Start? || w.gen == s.gen || (Active(s.caller) && s.gen == w.gen + 1))
    && (OnJob(w.pc) ==> Active(s.caller) && w.gen == s.gen)
    && (w.pc.UnlockWork? || w.pc.ExitCheck? ==> s.stop || w.gen < s.gen)
    && (w.pc.LoadGen? ==> w.gen < s.gen)
    && (w.pc.Exited? ==> s.stop)
    && (w.pc.HeldStop? || w.pc.HeldWait? ==> w.gen == s.gen)
    && (w.pc.HeldWait? ==> !s.stop)
    && (w.pc.Asleep? ==> (w.gen == s.gen && !s.stop) || s.caller.GenSignal? || s.caller.StopSignal?)
    && (w.pc.PollGen? || w.pc.PollStop? ==> w.pc.spins <= SPIN_WORKER)
  }

  /** The two counters count who they should. */
  predicate CountedOk(s: State, i: nat)
    requires i < |s.workers|
  {
    var w := s.workers[i];
    && (Starting(s.caller) ==> (i in s.readyBy <==> !Booting(w.pc)))
    && (Active(s.caller) ==> (i in s.finishedBy <==> w.gen == s.gen && !OnJob(w.pc)))
  }

  /** A claimed unit is computed by its claimer alone, and a worker leaves only a drained cursor. */
  predicate ClaimOk(s: State, i: nat)
    requires i < |s.workers|
  {
    var w := s.workers[i];
    && (w.pc.Run? ==> Owns(s, Member(i), w.pc.unit))
    && (w.pc.Finish? ==> s.cursor >= s.units)
  }

  predicate MemberOk(s: State, i: nat)
    requires i < |s.workers|
  {
    MutexOk(s, i) && PhaseOk(s, i) && CountedOk(s, i) && ClaimOk(s, i)
  }

  predicate Owns(s: State, a: Actor, u: nat) {
    && u < s.cursor && u < s.units == |s.runs| == |s.claimedBy|
    && s.runs[u] == 0 && s.claimedBy[u] == a
  }

  /** The actor is in the middle of computing unit u. */
  predicate Running(s: State, a: Actor, u: nat) {
    match a
    case Nobody => false
    case Caller => s.caller == InlineRun(u)
    case Member(i) => i < |s.workers| && s.workers[i].pc == Run(u)
  }

  predicate UnitOk(s: State, u: nat)
    requires u < s.units == |s.runs| == |s.claimedBy|
  {
    if s.caller.StoreCursor? || s.caller.InlineStore? then s.runs[u] == 0
    else if u < s.cursor then s.runs[u] == 1 || (s.runs[u] == 0 && Running(s, s.claimedBy[u], u))
    else s.runs[u] == 0
  }

  predicate Settled(s: State) {
    s.cursor >= s.units && forall u :: 0 <= u < |s.runs| ==> s.runs[u] == 1
  }

  /** What the caller's position says of the scalar state. */
  predicate StageOk(s: State) {
    && (CallerHolds(s.caller) <==> s.mutex == Caller)
    && (s.stop <==> Stopping(s.caller))
    && (if Starting(s.caller) || s.caller.ClearStop? || s.caller.Reset? then s.poolSize == 0
      else s.poolSize == |s.workers|)
    && (Active(s.caller) || Publishing(s.caller) ==> 0 < |s.workers|)
    && (s.caller.InlineStore? || Inline(s.caller) || s.caller.Reset? || s.caller.ClearStop? ==> s.workers == [])
    && (s.caller.StoreFinished? || s.caller.GenLock? || s.caller.GenAdd? ==> s.cursor == 0)
    && (s.caller.GenLock? || s.caller.GenAdd? ==> s.finished == 0 && s.finishedBy == {})
    && (s.caller.SpinDone? ==> s.caller.spins <= SPIN_MASTER)
    && (s.caller.WaitUnlock? ==> s.finished >= s.poolSize)
    && (s.caller.InlineRun? ==> Owns(s, Caller, s.caller.unit))
    && (s.caller.Create? ==> |s.workers| <= s.caller.want)
    && (s.caller.Join? ==> s.caller.next <= |s.workers|)
    && (Starting(s.caller) ==> s.gen == 0 && s.units == 0)
  }

  /** What the caller's position says of every worker. */
  predicate CrewOk(s: State) {
    && (s.caller.Join? ==> forall i :: 0 <= i < s.caller.next && i < |s.workers| ==> s.workers[i].pc.Exited?)
    && (s.caller.DropWorkers? ==> forall i :: 0 <= i < |s.workers| ==> s.workers[i].pc.Exited?)
    && (s.caller.SetWorkers? ==> forall i :: 0 <= i < |s.workers| ==> !Booting(s.workers[i].pc))
  }

  /** A caller that waits is owed a signal as soon as the last worker has finished. */
  ghost predicate WaitOk(s: State) {
    s.caller.WaitBlock? || s.caller.WaitAsleep? ==> s.finished < s.poolSize || exists i :: SignalsDone(s, i)
  }

  ghost predicate CallerOk(s: State) {
    && StageOk(s) && CrewOk(s) && WaitOk(s)
    && (!InDispatch(s.caller) ==> Settled(s))
  }

  /** Worker i holds the promise to signal the waiting caller. */
  predicate SignalsDone(s: State, i: nat) {
    i < |s.workers| && (s.workers[i].pc.DoneLock? || s.workers[i].pc.DoneSignal?)
  }

  predicate CountsOk(s: State) {
    && (s.mutex.Member? ==> s.mutex.worker < |s.workers|)
    && (Starting(s.caller) ==> s.ready == |s.readyBy| && forall i :: i in s.readyBy ==> i < |s.workers|)
    && (Active(s.caller) ==>
         && s.finished == |s.finishedBy|
         && (forall i :: i in s.finishedBy ==> i < |s.workers|)
         && (s.finished > 0 ==> s.cursor >= s.units))
    && s.units == |s.runs| == |s.claimedBy|
  }

  ghost predicate Inv(s: State) {
    && CallerOk(s)
    && CountsOk(s)
    && (forall i :: 0 <= i < |s.workers| ==> MemberOk(s, i))
    && (forall u :: 0 <= u < s.units ==> UnitOk(s, u))
  }

  lemma InitialInv()
    ensures Inv(Initial())
  {
  }

  /** A set of indices below n that has n members has them all. */
  lemma {:induction false} AllIndices(n: nat, members: set<nat>)
    requires forall i :: i in members ==> i < n
    ensures |members| <= n
    ensures |members| == n ==> forall i: nat :: i < n ==> i in members
  {
    if n == 0 {
      assert members == {};
    } else {
      var last: nat := n - 1;
      AllIndices(last, members - {last});
      assert last !in members ==> members - {last} == members;
      assert forall i: nat :: i < last && i in members - {last} ==> i in members;
    }
  }

  // An instruction of a worker keeps what the invariant says of every worker, its own included.

  lemma WorkerKeepsMutex(s: State, i: nat, j: nat)
    requires WorkerEnabled(s, i) && j < |s.workers| && MutexOk(s, i) && MutexOk(s, j)
    ensures MutexOk(WorkerStep(s, i), j)
  {
  }

  lemma IdlingKeepsOwnPhase(s: State, i: nat)
    requires WorkerEnabled(s, i) && Idling(s.workers[i].pc) && StageOk(s) && MutexOk(s, i) && PhaseOk(s, i)
    ensures PhaseOk(WorkerStep(s, i), i)
  {
  }

  lemma WorkingKeepsOwnPhase(s: State, i: nat)
    requires WorkerEnabled(s, i) && !Idling(s.workers[i].pc) && StageOk(s) && MutexOk(s, i) && PhaseOk(s, i)
    ensures PhaseOk(WorkerStep(s, i), i)
  {
  }

  lemma WorkerKeepsOwnPhase(s: State, i: nat)
    requires WorkerEnabled(s, i) && StageOk(s) && MutexOk(s, i) && PhaseOk(s, i)
    ensures PhaseOk(WorkerStep(s, i), i)
  {
    if Idling(s.workers[i].pc) { IdlingKeepsOwnPhase(s, i); } else { WorkingKeepsOwnPhase(s, i); }
  }

  /** Another worker's instruction changes at most where the caller stands. */
  lemma WorkerLeavesOthers(s: State, i: nat, j: nat)
    requires WorkerEnabled(s, i) && j < |s.workers| && i != j
    ensures
      var t := WorkerStep(s, i);
      && |t.workers| == |s.workers| && t.workers[j] == s.workers[j]
      && t.gen == s.gen && t.stop == s.stop
      && (t.caller == s.caller || (s.caller.WaitAsleep? && t.caller.WaitWoken?))
      && (t.readyBy == s.readyBy || t.readyBy == s.readyBy + {i})
      && (t.finishedBy == s.finishedBy || t.finishedBy == s.finishedBy + {i})
  {
  }

  lemma WorkerKeepsPhase(s: State, i: nat, j: nat)
    requires WorkerEnabled(s, i) && j < |s.workers| && StageOk(s) && MutexOk(s, i) && PhaseOk(s, i) && PhaseOk(s, j)
    ensures PhaseOk(WorkerStep(s, i), j)
  {
    if i == j { WorkerKeepsOwnPhase(s, i); } else { WorkerLeavesOthers(s, i, j); }
  }

  lemma WorkerKeepsCounted(s: State, i: nat, j: nat)
    requires WorkerEnabled(s, i) && j < |s.workers| && StageOk(s) && PhaseOk(s, i) && CountedOk(s, i) && CountedOk(s, j)
    ensures CountedOk(WorkerStep(s, i), j)
  {
    if i != j { WorkerLeavesOthers(s, i, j); }
  }

  lemma IdlingKeepsClaim(s: State, i: nat, j: nat)
    requires WorkerEnabled(s, i) && Idling(s.workers[i].pc) && j < |s.workers| && CountsOk(s) && PhaseOk(s, i)
    requires ClaimOk(s, i) && ClaimOk(s, j)
    requires s.cursor < s.units ==> UnitOk(s, s.cursor)
    ensures ClaimOk(WorkerStep(s, i), j)
  {
  }

  lemma WorkingKeepsClaim(s: State, i: nat, j: nat)
    requires WorkerEnabled(s, i) && !Idling(s.workers[i].pc) && j < |s.workers| && CountsOk(s) && PhaseOk(s, i)
    requires ClaimOk(s, i) && ClaimOk(s, j)
    requires s.cursor < s.units ==> UnitOk(s, s.cursor)
    ensures ClaimOk(WorkerStep(s, i), j)
  {
  }

  lemma WorkerKeepsClaim(s: State, i: nat, j: nat)
    requires WorkerEnabled(s, i) && j < |s.workers| && CountsOk(s) && PhaseOk(s, i) && ClaimOk(s, i) && ClaimOk(s, j)
    requires s.cursor < s.units ==> UnitOk(s, s.cursor)
    ensures ClaimOk(WorkerStep(s, i), j)
  {
    if Idling(s.workers[i].pc) { IdlingKeepsClaim(s, i, j); } else { WorkingKeepsClaim(s, i, j); }
  }

  lemma WorkerKeepsUnit(s: State, i: nat, u: nat)
    requires StageOk(s) && CountsOk(s) && WorkerEnabled(s, i) && MemberOk(s, i) && u < s.units && UnitOk(s, u)
    ensures WorkerStep(s, i).units == |WorkerStep(s, i).runs| == |WorkerStep(s, i).claimedBy| == s.units
    ensures UnitOk(WorkerStep(s, i), u)
  {
    if s.workers[i].pc.Claim? || s.workers[i].pc.Run? {
      WorkingKeepsUnit(s, i, u);
    } else {
      IdlingKeepsUnit(s, i, u);
    }
  }

  lemma WorkingKeepsUnit(s: State, i: nat, u: nat)
    requires StageOk(s) && CountsOk(s) && WorkerEnabled(s, i) && MemberOk(s, i) && u < s.units && UnitOk(s, u)
    requires s.workers[i].pc.Claim? || s.workers[i].pc.Run?
    ensures WorkerStep(s, i).units == |WorkerStep(s, i).runs| == |WorkerStep(s, i).claimedBy| == s.units
    ensures UnitOk(WorkerStep(s, i), u)
  {
  }

  lemma IdlingKeepsUnit(s: State, i: nat, u: nat)
    requires StageOk(s) && CountsOk(s) && WorkerEnabled(s, i) && MemberOk(s, i) && u < s.units && UnitOk(s, u)
    requires !s.workers[i].pc.Claim? && !s.workers[i].pc.Run?
    ensures WorkerStep(s, i).units == |WorkerStep(s, i).runs| == |WorkerStep(s, i).claimedBy| == s.units
    ensures UnitOk(WorkerStep(s, i), u)
  {
  }

  lemma IdlingKeepsStage(s: State, i: nat)
    requires WorkerEnabled(s, i) && Idling(s.workers[i].pc) && StageOk(s) && MutexOk(s, i) && PhaseOk(s, i)
    requires ClaimOk(s, i)
    ensures StageOk(WorkerStep(s, i))
  {
  }

  lemma WorkingKeepsStage(s: State, i: nat)
    requires WorkerEnabled(s, i) && !Idling(s.workers[i].pc) && StageOk(s) && MutexOk(s, i) && PhaseOk(s, i)
    requires ClaimOk(s, i)
    ensures StageOk(WorkerStep(s, i))
  {
  }

  lemma WorkerKeepsStage(s: State, i: nat)
    requires WorkerEnabled(s, i) && StageOk(s) && MutexOk(s, i) && PhaseOk(s, i) && ClaimOk(s, i)
    ensures StageOk(WorkerStep(s, i))
  {
    if Idling(s.workers[i].pc) { IdlingKeepsStage(s, i); } else { WorkingKeepsStage(s, i); }
  }

  lemma WorkerKeepsCrew(s: State, i: nat)
    requires WorkerEnabled(s, i) && CrewOk(s)
    ensures CrewOk(WorkerStep(s, i))
  {
  }

  lemma WorkerKeepsWait(s: State, i: nat)
    requires WorkerEnabled(s, i) && WaitOk(s) && StageOk(s) && MutexOk(s, i)
    ensures WaitOk(WorkerStep(s, i))
  {
    var t := WorkerStep(s, i);
    if (t.caller.WaitBlock? || t.caller.WaitAsleep?) && t.finished >= t.poolSize {
      if s.finished >= s.poolSize {
        var k :| SignalsDone(s, k);
        assert SignalsDone(t, k);
      } else {
        assert SignalsDone(t, i);
      }
    }
  }

  lemma IdlingKeepsCounts(s: State, i: nat)
    requires WorkerEnabled(s, i) && Idling(s.workers[i].pc) && CountsOk(s) && PhaseOk(s, i) && CountedOk(s, i)
    requires ClaimOk(s, i)
    ensures CountsOk(WorkerStep(s, i))
  {
  }

  lemma WorkingKeepsCounts(s: State, i: nat)
    requires WorkerEnabled(s, i) && !Idling(s.workers[i].pc) && CountsOk(s) && PhaseOk(s, i) && CountedOk(s, i)
    requires ClaimOk(s, i)
    ensures CountsOk(WorkerStep(s, i))
  {
  }

  lemma WorkerKeepsCounts(s: State, i: nat)
    requires WorkerEnabled(s, i) && CountsOk(s) && PhaseOk(s, i) && CountedOk(s, i) && ClaimOk(s, i)
    ensures CountsOk(WorkerStep(s, i))
  {
    if Idling(s.workers[i].pc) { IdlingKeepsCounts(s, i); } else { WorkingKeepsCounts(s, i); }
  }

  lemma WorkerKeepsSettled(s: State, i: nat)
    requires WorkerEnabled(s, i) && PhaseOk(s, i) && (!InDispatch(s.caller) ==> Settled(s))
    ensures !InDispatch(WorkerStep(s, i).caller) ==> Settled(WorkerStep(s, i))
  {
  }

  lemma WorkerKeepsMember(s: State, i: nat, j: nat)
    requires Inv(s) && WorkerEnabled(s, i) && j < |s.workers|
    ensures |WorkerStep(s, i).workers| == |s.workers| && WorkerStep(s, i).units == s.units
    ensures MemberOk(WorkerStep(s, i), j)
  {
    assert MemberOk(s, i) && MemberOk(s, j);
    hide UnitOk, Settled, CrewOk, WaitOk, MutexOk, PhaseOk, CountedOk, ClaimOk;
    WorkerKeepsMutex(s, i, j);
    WorkerKeepsPhase(s, i, j);
    WorkerKeepsCounted(s, i, j);
    WorkerKeepsClaim(s, i, j);
  }

  lemma WorkerInv(s: State, i: nat)
    requires Inv(s) && WorkerEnabled(s, i)
    ensures Inv(WorkerStep(s, i))
  {
    assert MemberOk(s, i);
    WorkerKeepsMember(s, i, i);
    WorkerKeepsStage(s, i);
    WorkerKeepsCrew(s, i);
    WorkerKeepsWait(s, i);
    WorkerKeepsCounts(s, i);
    WorkerKeepsSettled(s, i);
    hide UnitOk, Settled, StageOk, CrewOk, WaitOk, MemberOk, WorkerStep;
    forall j | 0 <= j < |s.workers| ensures MemberOk(WorkerStep(s, i), j) {
      WorkerKeepsMember(s, i, j);
    }
    forall u | 0 <= u < s.units ensures UnitOk(WorkerStep(s, i), u) {
      WorkerKeepsUnit(s, i, u);
    }
  }

  /** When the finish counter has reached the pool size, every worker has left the job. */
  lemma AllFinished(s: State)
    requires Inv(s) && Active(s.caller) && s.finished >= s.poolSize
    ensures forall i :: 0 <= i < |s.workers| ==> s.workers[i].gen == s.gen && !OnJob(s.workers[i].pc)
    ensures Settled(s)
  {
    AllIndices(|s.workers|, s.finishedBy);
    forall i | 0 <= i < |s.workers| ensures s.workers[i].gen == s.gen && !OnJob(s.workers[i].pc) {
      assert MemberOk(s, i);
    }
    forall u | 0 <= u < s.units ensures s.runs[u] == 1 {
      assert UnitOk(s, u);
    }
  }

  lemma CallerKeepsPhase(s: State, j: nat)
    requires Inv(s) && CallerEnabled(s) && j < |CallerStep(s).workers|
    ensures MutexOk(CallerStep(s), j) && PhaseOk(CallerStep(s), j)
  {
    if j < |s.workers| {
      assert MemberOk(s, j);
    }
    if Active(s.caller) && s.finished >= s.poolSize {
      AllFinished(s);
    }
    if s.caller.AwaitReady? {
      AllIndices(|s.workers|, s.readyBy);
    }
  }

  lemma CallerKeepsCounted(s: State, j: nat)
    requires StageOk(s) && CountsOk(s) && CallerEnabled(s) && j < |CallerStep(s).workers|
    requires j < |s.workers| ==> MemberOk(s, j)
    ensures CountedOk(CallerStep(s), j) && ClaimOk(CallerStep(s), j)
  {
  }

  lemma DispatchKeepsStage(s: State)
    requires StageOk(s) && CallerEnabled(s) && InDispatch(s.caller)
    requires CountsOk(s) && (s.cursor < s.units ==> UnitOk(s, s.cursor))
    ensures StageOk(CallerStep(s))
  {
  }

  lemma DispatchKeepsCounts(s: State)
    requires StageOk(s) && CountsOk(s) && CallerEnabled(s) && InDispatch(s.caller)
    ensures CountsOk(CallerStep(s)) && CrewOk(CallerStep(s))
  {
  }

  lemma DispatchKeepsWait(s: State)
    requires Inv(s) && CallerEnabled(s) && InDispatch(s.caller)
    ensures WaitOk(CallerStep(s))
    ensures !InDispatch(CallerStep(s).caller) ==> Settled(CallerStep(s))
  {
    var t := CallerStep(s);
    if Active(s.caller) && s.finished >= s.poolSize {
      AllFinished(s);
      if s.caller.WaitBlock? {
        var k :| SignalsDone(s, k);
        assert SignalsDone(t, k);
      }
    }
    if s.caller.InlineClaim? && s.cursor >= s.units {
      forall u | 0 <= u < s.units ensures s.runs[u] == 1 {
        assert UnitOk(s, u);
      }
    }
  }

  lemma LifecycleKeepsStage(s: State)
    requires Inv(s) && CallerEnabled(s) && !InDispatch(s.caller)
    ensures StageOk(CallerStep(s)) && CountsOk(CallerStep(s))
  {
    assert s.mutex.Member? ==> MemberOk(s, s.mutex.worker);
  }

  lemma LifecycleKeepsCrew(s: State)
    requires Inv(s) && CallerEnabled(s) && !InDispatch(s.caller)
    ensures CallerOk(CallerStep(s))
  {
    LifecycleKeepsStage(s);
    if s.caller.AwaitReady? {
      AllIndices(|s.workers|, s.readyBy);
      forall i | 0 <= i < |s.workers| ensures !Booting(s.workers[i].pc) {
        assert MemberOk(s, i);
      }
    }
  }

  lemma CallerKeepsUnit(s: State, u: nat)
    requires Inv(s) && CallerEnabled(s) && u < CallerStep(s).units
    ensures CallerStep(s).units == |CallerStep(s).runs| == |CallerStep(s).claimedBy|
    ensures UnitOk(CallerStep(s), u)
  {
    assert UnitOk(s, u);
    if Active(s.caller) && s.finished >= s.poolSize {
      AllFinished(s);
    }
  }

  lemma CallerInv(s: State)
    requires Inv(s) && CallerEnabled(s)
    ensures Inv(CallerStep(s))
  {
    var t := CallerStep(s);
    if InDispatch(s.caller) {
      assert s.cursor < s.units ==> UnitOk(s, s.cursor);
      DispatchKeepsStage(s);
      DispatchKeepsCounts(s);
      DispatchKeepsWait(s);
    } else {
      LifecycleKeepsStage(s);
      LifecycleKeepsCrew(s);
    }
    forall j | 0 <= j < |t.workers| ensures MemberOk(t, j) {
      assert j < |s.workers| ==> MemberOk(s, j);
      CallerKeepsPhase(s, j);
      CallerKeepsCounted(s, j);
    }
    forall u | 0 <= u < t.units ensures UnitOk(t, u) {
      CallerKeepsUnit(s, u);
    }
  }

  lemma RequestInv(s: State, request: Request)
    requires Inv(s) && s.caller.Idle?
    ensures Inv(Accept(s, request))
  {
    var t := Accept(s, request);
    forall j | 0 <= j < |t.workers| ensures MemberOk(t, j) {
      assert MemberOk(s, j);
    }
  }

  lemma WakeWorkerInv(s: State, i: nat)
    requires Inv(s) && Enabled(s, WakeWorker(i))
    ensures Inv(At(s, i, Woken))
  {
    var t := At(s, i, Woken);
    if (s.caller.WaitBlock? || s.caller.WaitAsleep?) && s.finished >= s.poolSize {
      var k :| SignalsDone(s, k);
      assert SignalsDone(t, k);
    }
    forall j | 0 <= j < |t.workers| ensures MemberOk(t, j) {
      assert MemberOk(s, j) && MemberOk(s, i);
    }
    forall u | 0 <= u < t.units ensures UnitOk(t, u) {
      assert UnitOk(s, u);
    }
  }

  /** Failed creates, spurious wakeups, timeouts and yields keep the invariant too. */
  lemma NoiseInv(s: State, a: Action)
    requires Inv(s) && Enabled(s, a) && !Productive(a) && !a.Ask?
    ensures Inv(Apply(s, a))
  {
    var t := Apply(s, a);
    if a.WakeWorker? {
      WakeWorkerInv(s, a.worker);
    } else {
      forall j | 0 <= j < |t.workers| ensures MemberOk(t, j) {
        assert MemberOk(s, j);
      }
      forall u | 0 <= u < t.units ensures UnitOk(t, u) {
        assert UnitOk(s, u);
      }
    }
  }

  /** Every action of the pool and of its surroundings keeps the invariant. */
  lemma ActionInv(s: State, a: Action)
    requires Inv(s) && Enabled(s, a)
    ensures Inv(Apply(s, a))
  {
    match a
    case Work(i) => WorkerInv(s, i);
    case Lead => CallerInv(s);
    case Ask(request) => RequestInv(s, request);
    case _ => NoiseInv(s, a);
  }
}
