/**
 * What the worker pool of tools/fused_gemv_batch.c guarantees in every run: each unit of a job is
 * computed exactly once before its dispatch returns, no worker of one dispatch touches the next, and
 * stopping joins every worker.
 */
module GemvPoolSafety {
  import opened GemvPool
  import opened GemvPoolInvariant

  /** Every state of every run satisfies the invariant. */
  lemma {:induction false} ReachableInv(states: seq<State>, actions: seq<Action>, k: nat)
    requires IsRun(states, actions) && k < |states|
    ensures Inv(states[k])
  {
    if k == 0 {
      InitialInv();
    } else {
      ReachableInv(states, actions, k - 1);
      assert Follows(states[k - 1], actions[k - 1], states[k]);
      ActionInv(states[k - 1], actions[k - 1]);
    }
  }

  /**
   * Exactly once: whenever a dispatch returns, in any run, each unit of its job has been computed
   * once, every worker has passed through the generation, and none can still touch the job.
   */
  lemma DispatchIsExact(states: seq<State>, actions: seq<Action>, k: nat)
    requires IsRun(states, actions) && k < |actions|
    requires InDispatch(states[k].caller) && states[k + 1].caller.Idle?
    ensures EveryUnitOnce(states[k + 1]) && NobodyOnJob(states[k + 1])
  {
    var t := states[k + 1];
    ReachableInv(states, actions, k);
    ReachableInv(states, actions, k + 1);
    assert Follows(states[k], actions[k], t);
    forall i | 0 <= i < |t.workers| ensures OffJob(t, i) {
      assert MemberOk(t, i);
    }
  }

  predicate EveryUnitOnce(s: State) {
    |s.runs| == s.units && forall u :: 0 <= u < s.units ==> s.runs[u] == 1
  }

  /** The worker is on the current generation and will not touch the job before it sees another. */
  predicate OffJob(s: State, i: nat)
    requires i < |s.workers|
  {
    !OnJob(s.workers[i].pc) && !s.workers[i].pc.LoadGen? && s.workers[i].gen == s.gen
  }

  predicate NobodyOnJob(s: State) {
    forall i :: 0 <= i < |s.workers| ==> OffJob(s, i)
  }

  /** In every reachable state no unit has been computed twice, and none is held by two actors. */
  lemma NeverTwice(states: seq<State>, actions: seq<Action>, k: nat)
    requires IsRun(states, actions) && k < |states|
    ensures forall u :: 0 <= u < |states[k].runs| ==> states[k].runs[u] <= 1
    ensures forall u, a, b :: 0 <= u < |states[k].runs| && Running(states[k], a, u) && Running(states[k], b, u) ==>
      a == b
    ensures forall u, a :: 0 <= u < |states[k].runs| && Running(states[k], a, u) ==> states[k].runs[u] == 0
  {
    var s := states[k];
    ReachableInv(states, actions, k);
    forall u | 0 <= u < |s.runs| ensures s.runs[u] <= 1 {
      assert UnitOk(s, u);
    }
    forall u, a | 0 <= u < |s.runs| && Running(s, a, u) ensures s.runs[u] == 0 && s.claimedBy[u] == a {
      assert a.Member? ==> MemberOk(s, a.worker);
    }
  }

  /** The caller rewrites the job, the cursor, the finish counter or the generation in this action. */
  predicate RewritesJob(s: State, a: Action) {
    || (a.Ask? && a.request.Dispatch?)
    || (a.Lead? && (Publishing(s.caller) || s.caller.InlineStore? || s.caller.Reset?))
  }

  /**
   * No worker of one dispatch touches the next: whenever the job or a counter is rewritten, no
   * worker can claim, compute or count itself before it has seen the next generation.
   */
  lemma JobIsRewrittenAlone(states: seq<State>, actions: seq<Action>, k: nat)
    requires IsRun(states, actions) && k < |actions| && RewritesJob(states[k], actions[k])
    ensures NobodyOnJob(states[k])
  {
    var s := states[k];
    ReachableInv(states, actions, k);
    assert Follows(s, actions[k], states[k + 1]);
    forall i | 0 <= i < |s.workers| ensures OffJob(s, i) {
      assert MemberOk(s, i);
    }
  }

  /** A stop drops its worker table only after every thread it had created, however few, has exited. */
  lemma StopJoinsEveryWorker(states: seq<State>, actions: seq<Action>, k: nat)
    requires IsRun(states, actions) && k < |actions|
    requires |states[k + 1].workers| < |states[k].workers|
    ensures forall i :: 0 <= i < |states[k].workers| ==> states[k].workers[i].pc.Exited?
    ensures states[k + 1].poolSize == 0 && states[k + 1].workers == []
  {
    ReachableInv(states, actions, k);
    assert Follows(states[k], actions[k], states[k + 1]);
  }
}
